/**
 * The patient directory rules shared by the booking and registration
 * handlers: mobile normalisation, lookup by mobile or id, the new-patient
 * row, and the visit counter a booking bumps.
 */
module Registry {
  import opened Wrappers
  import opened Text
  import opened Records
  import opened Database
  import opened Http

  /**
   * `mobile.replace(/\D/g, '')` followed by the ten-digit check: the digits
   * of the input when there are exactly ten of them, otherwise a refusal.
   */
  function NormalizeMobile(raw: string): (r: Option<string>)
    ensures r.Some? <==> |DigitsOnly(raw)| == 10
    ensures r.Some? ==> |r.value| == 10 && AllDigits(r.value)
  {
    var digits := DigitsOnly(raw);
    if |digits| == 10 then Some(digits) else None
  }

  /** A normalised mobile normalises to itself. */
  lemma NormalizeIdempotent(raw: string)
    requires NormalizeMobile(raw).Some?
    ensures NormalizeMobile(NormalizeMobile(raw).value) == NormalizeMobile(raw)
  {
    DigitsOnlyIdempotent(raw);
  }

  /** Punctuation and spaces do not change the normalised mobile. */
  lemma NormalizeIgnoresSeparators(a: string, b: string, sep: char)
    requires !IsDigit(sep)
    ensures NormalizeMobile(a + [sep] + b) == NormalizeMobile(a + b)
  {
    DigitsOnlyConcat(a, [sep] + b);
    DigitsOnlyConcat([sep], b);
    DigitsOnlyConcat(a, b);
    assert a + [sep] + b == a + ([sep] + b);
    assert ([sep] + b)[1..] == b;
  }

  lemma {:induction false} DigitsOnlyConcat(a: string, b: string)
    ensures DigitsOnly(a + b) == DigitsOnly(a) + DigitsOnly(b)
  {
    if a == [] {
      assert a + b == b;
    } else {
      assert (a + b)[1..] == a[1..] + b;
      DigitsOnlyConcat(a[1..], b);
    }
  }

  /** `SELECT ... FROM patients WHERE mobile = ?`, first row: an exact text match. */
  function PatientByMobile(patients: seq<Patient>, mobile: string): (r: Option<nat>)
    ensures r.Some? ==> r.value < |patients| && patients[r.value].mobile == mobile
    ensures r.None? <==> forall k :: 0 <= k < |patients| ==> patients[k].mobile != mobile
  {
    FirstWhere(patients, (p: Patient) => p.mobile == mobile)
  }

  /** `SELECT ... FROM patients WHERE id = ?`, first row. */
  function PatientById(patients: seq<Patient>, id: Id): (r: Option<nat>)
    ensures r.Some? ==> r.value < |patients| && patients[r.value].id == id
    ensures r.None? <==> forall k :: 0 <= k < |patients| ==> patients[k].id != id
  {
    FirstWhere(patients, (p: Patient) => p.id == id)
  }

  /** The row `INSERT INTO patients` creates: no visits yet, no last visit. */
  function NewPatient(id: Id, name: string, mobile: string, age: string, gender: string,
                      address: string, today: string, createdBy: Id): (p: Patient)
    ensures p.id == id && p.name == name && p.mobile == mobile
    ensures p.age == OrNull(age) && p.address == OrNull(address)
    ensures p.gender == OrDefault(gender, "Male")
    ensures p.totalVisits == 0 && p.lastVisit == None
  {
    Patient(id, name, mobile, OrNull(age), OrDefault(gender, "Male"), OrNull(address),
            today, 0, None, createdBy)
  }

  /**
   * `UPDATE patients SET total_visits = total_visits + 1, last_visit = ? WHERE id = ?`.
   */
  function BumpVisits(patients: seq<Patient>, id: Id, date: string): (r: seq<Patient>)
    ensures |r| == |patients|
    ensures forall k :: 0 <= k < |r| && patients[k].id == id ==>
      r[k] == patients[k].(totalVisits := patients[k].totalVisits + 1, lastVisit := Some(date))
    ensures forall k :: 0 <= k < |r| && patients[k].id != id ==> r[k] == patients[k]
  {
    UpdateWhere(patients,
      (p: Patient) => p.id == id,
      (p: Patient) => p.(totalVisits := p.totalVisits + 1, lastVisit := Some(date)))
  }

  /** Which patient a booking is for, and the patient table after finding or creating them. */
  datatype Resolution = Resolution(patients: seq<Patient>, nextPatientId: Id, patientId: Id)

  /**
   * A given patient id is taken as is; otherwise the first patient whose
   * mobile equals `mobile` exactly; otherwise a new patient row.
   */
  function ResolvePatient(patients: seq<Patient>, nextId: Id, patientId: Id, name: string,
                          mobile: string, age: string, gender: string, today: string,
                          createdBy: Id): Resolution
  {
    if patientId != 0 then Resolution(patients, nextId, patientId)
    else
      match PatientByMobile(patients, mobile)
      case Some(k) => Resolution(patients, nextId, patients[k].id)
      case None =>
        Resolution(patients + [NewPatient(nextId, name, mobile, age, gender, "", today, createdBy)],
                   nextId + 1, nextId)
  }

  /** The patient lookup-or-insert of a booking; returns the patient id it settled on. */
  method FindOrAddPatient(db: Clinic, patientId: Id, name: string, mobile: string, age: string,
                          gender: string, today: string, userId: Id)
    returns (id: Id)
    modifies db
    ensures var res := ResolvePatient(old(db.patients), old(db.nextPatientId), patientId, name, mobile,
                                      age, gender, today, userId);
      && id == res.patientId
      && db.Snapshot() == old(db.Snapshot()).(patients := res.patients, nextPatientId := res.nextPatientId)
  {
    id := patientId;
    if id == 0 {
      var existing := PatientByMobile(db.patients, mobile);
      if existing.Some? {
        id := db.patients[existing.value].id;
      } else {
        id := db.nextPatientId;
        db.patients := db.patients + [NewPatient(id, name, mobile, age, gender, "", today, userId)];
        db.nextPatientId := db.nextPatientId + 1;
      }
    }
  }

  /**
   * The three ways a booking finds its patient: the given id with the table
   * untouched; the first patient with that exact mobile, table untouched; or
   * exactly one new patient holding that mobile, under the next id.
   */
  lemma ResolvePatientCases(patients: seq<Patient>, nextId: Id, patientId: Id, name: string,
                            mobile: string, age: string, gender: string, today: string, createdBy: Id)
    ensures var r := ResolvePatient(patients, nextId, patientId, name, mobile, age, gender, today, createdBy);
      && (patientId != 0 ==> r == Resolution(patients, nextId, patientId))
      && (patientId == 0 && (exists k :: 0 <= k < |patients| && patients[k].mobile == mobile) ==>
            && r.patients == patients && r.nextPatientId == nextId
            && (exists k :: 0 <= k < |patients| && patients[k].mobile == mobile && r.patientId == patients[k].id
                  && forall j :: 0 <= j < k ==> patients[j].mobile != mobile))
      && (patientId == 0 && (forall k :: 0 <= k < |patients| ==> patients[k].mobile != mobile) ==>
            && r.patientId == nextId && r.nextPatientId == nextId + 1
            && r.patients == patients + [NewPatient(nextId, name, mobile, age, gender, "", today, createdBy)])
  {
    if patientId == 0 {
      match PatientByMobile(patients, mobile)
      case Some(k) =>
        assert forall j :: 0 <= j < k ==> patients[j].mobile != mobile;
      case None =>
    }
  }

  /** A resolution only ever appends to the patient table, and its new ids stay below the counter. */
  lemma ResolvePatientAppends(patients: seq<Patient>, nextId: Id, patientId: Id, name: string,
                              mobile: string, age: string, gender: string, today: string, createdBy: Id)
    requires forall k :: 0 <= k < |patients| ==> 1 <= patients[k].id < nextId
    requires nextId >= 1
    ensures var r := ResolvePatient(patients, nextId, patientId, name, mobile, age, gender, today, createdBy);
      && patients <= r.patients && r.nextPatientId >= nextId
      && (forall k :: 0 <= k < |r.patients| ==> 1 <= r.patients[k].id < r.nextPatientId)
      && (patientId == 0 ==> exists k :: 0 <= k < |r.patients| && r.patients[k].id == r.patientId
                                         && r.patients[k].mobile == mobile)
  {
    if patientId == 0 {
      match PatientByMobile(patients, mobile)
      case Some(k) =>
      case None =>
        var r := ResolvePatient(patients, nextId, patientId, name, mobile, age, gender, today, createdBy);
        assert r.patients[|patients|].id == r.patientId;
    }
  }

  // ---------------------------------------------------------------------
  // Search and registration (shared by the staff and patient handlers)
  // ---------------------------------------------------------------------

  /** The answer of a search by mobile: `found` and the matching row. */
  datatype Lookup = Lookup(status: Status, found: bool, patient: Option<Patient>)

  /**
   * `searchByMobile` / `searchPatientByMobile`: a missing mobile is refused;
   * otherwise the first patient whose stored mobile equals the query exactly.
   */
  function SearchByMobile(patients: seq<Patient>, mobile: string): (r: Lookup)
    ensures r.status == BadRequest <==> mobile == ""
    ensures r.status != BadRequest ==> r.status == Ok
    ensures r.found <==> mobile != "" && exists k :: 0 <= k < |patients| && patients[k].mobile == mobile
    ensures r.found <==> r.patient.Some?
    ensures r.found ==> exists k :: 0 <= k < |patients| && patients[k] == r.patient.value
                                     && patients[k].mobile == mobile
                                     && forall j :: 0 <= j < k ==> patients[j].mobile != mobile
  {
    if mobile == "" then Lookup(BadRequest, false, None)
    else
      match PatientByMobile(patients, mobile)
      case Some(k) => Lookup(Ok, true, Some(patients[k]))
      case None => Lookup(Ok, false, None)
  }

  /** The search does not normalise: a formatted query misses the stored digits. */
  lemma SearchIsExact(p: Patient)
    requires p.mobile == "9876543210"
    ensures !SearchByMobile([p], "98765-43210").found
    ensures SearchByMobile([p], "9876543210").found
  {
    assert "98765-43210"[5] != "9876543210"[5];
  }

  /** No two patients share a mobile. */
  predicate MobilesUnique(patients: seq<Patient>) {
    forall i, j :: 0 <= i < j < |patients| ==> patients[i].mobile != patients[j].mobile
  }

  /** `addPatient` as a function of the tables before the request. */
  function RegisterPatient(t: Tables, name: string, mobile: string, age: string, gender: string,
                           address: string, today: string, createdBy: Id): Outcome
  {
    if name == "" || mobile == "" then Outcome(BadRequest, t)
    else
      match NormalizeMobile(mobile)
      case None => Outcome(BadRequest, t)
      case Some(digits) =>
        if PatientByMobile(t.patients, digits).Some? then Outcome(BadRequest, t)
        else
          Outcome(Created, t.(patients := t.patients + [NewPatient(t.nextPatientId, name, digits, age, gender,
                                                                   address, today, createdBy)],
                              nextPatientId := t.nextPatientId + 1))
  }

  /**
   * `addPatient`: name and mobile required, ten digits after stripping the
   * rest, no patient already holding those digits; then one insert.
   */
  method AddPatient(db: Clinic, name: string, mobile: string, age: string, gender: string,
                    address: string, today: string, createdBy: Id)
    returns (status: Status)
    modifies db`patients, db`nextPatientId
    ensures Outcome(status, db.Snapshot()) ==
            RegisterPatient(old(db.Snapshot()), name, mobile, age, gender, address, today, createdBy)
  {
    if name == "" || mobile == "" {
      return BadRequest;
    }
    var digits := NormalizeMobile(mobile);
    if digits.None? {
      return BadRequest;
    }
    var existing := PatientByMobile(db.patients, digits.value);
    if existing.Some? {
      return BadRequest;
    }
    db.patients := db.patients + [NewPatient(db.nextPatientId, name, digits.value, age, gender,
                                             address, today, createdBy)];
    db.nextPatientId := db.nextPatientId + 1;
    return Created;
  }

  /**
   * Registration is refused, changing nothing, exactly when the name or
   * mobile is missing, the mobile does not hold ten digits, or a patient
   * already has those digits; otherwise exactly one patient is added, holding
   * the digits, and no other table changes.
   */
  lemma RegisterPatientCases(t: Tables, name: string, mobile: string, age: string, gender: string,
                             address: string, today: string, createdBy: Id)
    ensures var o := RegisterPatient(t, name, mobile, age, gender, address, today, createdBy);
      && (o.status == BadRequest || o.status == Created)
      && (o.status == BadRequest <==>
            || name == "" || mobile == "" || NormalizeMobile(mobile).None?
            || exists k :: 0 <= k < |t.patients| && t.patients[k].mobile == NormalizeMobile(mobile).value)
      && (o.status == BadRequest ==> o.tables == t)
      && (o.status == Created ==>
            && o.tables == t.(patients := o.tables.patients, nextPatientId := t.nextPatientId + 1)
            && o.tables.patients == t.patients + [NewPatient(t.nextPatientId, name, NormalizeMobile(mobile).value,
                                                             age, gender, address, today, createdBy)])
  {
  }

  /** Registration never gives two patients the same mobile. */
  lemma RegisterKeepsMobilesUnique(t: Tables, name: string, mobile: string, age: string, gender: string,
                                   address: string, today: string, createdBy: Id)
    requires MobilesUnique(t.patients)
    ensures MobilesUnique(RegisterPatient(t, name, mobile, age, gender, address, today, createdBy).tables.patients)
  {
    var o := RegisterPatient(t, name, mobile, age, gender, address, today, createdBy);
    if o.status == Created {
      RegisterPatientCases(t, name, mobile, age, gender, address, today, createdBy);
      var s := o.tables.patients;
      forall i, j | 0 <= i < j < |s|
        ensures s[i].mobile != s[j].mobile
      {
        if j == |t.patients| {
          assert s[i] == t.patients[i];
        }
      }
    }
  }

  /** Resolving a booking's patient never gives two patients the same mobile. */
  lemma ResolveKeepsMobilesUnique(patients: seq<Patient>, nextId: Id, patientId: Id, name: string,
                                  mobile: string, age: string, gender: string, today: string, createdBy: Id)
    requires MobilesUnique(patients)
    ensures MobilesUnique(ResolvePatient(patients, nextId, patientId, name, mobile, age, gender, today,
                                         createdBy).patients)
  {
    ResolvePatientCases(patients, nextId, patientId, name, mobile, age, gender, today, createdBy);
  }
}

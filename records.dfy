/**
 * The rows of the clinic's tables, as the handlers read and write them.
 * Ids are auto-increment keys starting at 1; the id 0 stands for an absent
 * id or a SQL NULL reference. A request text field that is empty stands for
 * a missing (JavaScript-falsy) value.
 */
module Records {
  import opened Wrappers

  type Id = nat

  /** A nullable text column. */
  type Nullable = Option<string>

  /** `value || null`: a missing value is stored as NULL. */
  function OrNull(value: string): (r: Nullable)
    ensures r == None <==> value == ""
    ensures r != None ==> r.value == value
  {
    if value == "" then None else Some(value)
  }

  /** `value || fallback`. */
  function OrDefault(value: string, fallback: string): (r: string)
    ensures value != "" ==> r == value
    ensures value == "" ==> r == fallback
  {
    if value == "" then fallback else value
  }

  /** The four appointment states `updateAppointmentStatus` accepts. */
  datatype AppointmentStatus = Scheduled | Waiting | Completed | Cancelled {
    function Name(): string {
      match this
      case Scheduled => "Scheduled"
      case Waiting => "Waiting"
      case Completed => "Completed"
      case Cancelled => "Cancelled"
    }
  }

  /** Reads a status name; anything outside the four names is refused. */
  function ParseStatus(name: string): (r: Option<AppointmentStatus>)
    ensures r.Some? ==> r.value.Name() == name
  {
    if name == "Scheduled" then Some(Scheduled)
    else if name == "Waiting" then Some(Waiting)
    else if name == "Completed" then Some(Completed)
    else if name == "Cancelled" then Some(Cancelled)
    else None
  }

  /** Every status name is read back as its status. */
  lemma ParseStatusName(s: AppointmentStatus)
    ensures ParseStatus(s.Name()) == Some(s)
  {
  }

  datatype Patient = Patient(
    id: Id,
    name: string,
    mobile: string,
    age: Nullable,
    gender: string,
    address: Nullable,
    registeredDate: string,
    totalVisits: nat,
    lastVisit: Nullable,
    createdBy: Id)

  datatype Appointment = Appointment(
    id: Id,
    patientId: Id,
    doctorId: Id,
    date: string,
    time: string,
    reason: Nullable,
    fee: int,
    status: AppointmentStatus,
    createdBy: Id)

  /** The seven clinical fields a consultation save writes. */
  datatype ClinicalNotes = ClinicalNotes(
    chiefComplaints: Nullable,
    comorbidities: Nullable,
    imagingFindings: Nullable,
    diagnosis: Nullable,
    treatmentPlan: Nullable,
    followUpNotes: Nullable,
    vitals: Nullable)

  datatype Consultation = Consultation(
    id: Id,
    appointmentId: Id,
    patientId: Id,
    doctorId: Id,
    visitNumber: nat,
    notes: ClinicalNotes)

  datatype Payment = Payment(
    id: Id,
    appointmentId: Id,
    patientId: Id,
    doctorId: Id,
    amount: int,
    date: string,
    paymentMethod: string,
    status: string,
    notes: Nullable,
    createdBy: Id)

  datatype Invoice = Invoice(
    id: Id,
    number: string,
    appointmentId: Id,
    patientId: Id,
    doctorId: Id,
    amount: int,
    date: string,
    status: string)

  datatype User = User(
    id: Id,
    email: Nullable,
    password: string,
    name: Nullable,
    role: string,
    status: Nullable)

  datatype Doctor = Doctor(
    id: Id,
    userId: Id,
    name: Nullable,
    mobile: Nullable,
    email: Nullable,
    specialization: Nullable,
    fee: int,
    username: Nullable,
    status: Nullable)

  datatype StaffMember = StaffMember(
    id: Id,
    userId: Id,
    name: string,
    mobile: string,
    username: string,
    status: Nullable)

  datatype Template = Template(
    id: Id,
    doctorId: Id,
    fieldType: string,
    name: string,
    content: string)

  /** A `clinic_settings` row: the columns written so far, by column name. */
  datatype SettingsRow = SettingsRow(id: Id, columns: map<string, Nullable>)
}

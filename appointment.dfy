/** The appointment record and the slot key the server books against. */
module Appointments {

  /** One booking, with the seven text fields the booking form sends. */
  datatype Appointment = Appointment(
    patientName: string,
    age: string,
    gender: string,
    phone: string,
    doctorType: string,
    date: string,
    slot: string)

  /** The seven field values in the order of the booking form and of the
      admin table's columns. */
  function Fields(a: Appointment): (fs: seq<string>)
    ensures |fs| == 7
  {
    [a.patientName, a.age, a.gender, a.phone, a.doctorType, a.date, a.slot]
  }

  function FromFields(fs: seq<string>): (a: Appointment)
    requires |fs| == 7
    ensures Fields(a) == fs
  {
    Appointment(fs[0], fs[1], fs[2], fs[3], fs[4], fs[5], fs[6])
  }

  /** Two bookings of the same doctor type, date and slot. */
  predicate SameSlot(a: Appointment, b: Appointment) {
    a.doctorType == b.doctorType && a.date == b.date && a.slot == b.slot
  }

  /** No two stored bookings share a (doctor type, date, slot) triple. */
  ghost predicate NoDoubleBooking(appts: seq<Appointment>) {
    forall i, j :: 0 <= i < j < |appts| ==> !SameSlot(appts[i], appts[j])
  }

  /** Appending a booking whose slot is free keeps the store free of
      double bookings. */
  lemma AppendFreeSlot(appts: seq<Appointment>, a: Appointment)
    requires NoDoubleBooking(appts)
    requires forall i :: 0 <= i < |appts| ==> !SameSlot(appts[i], a)
    ensures NoDoubleBooking(appts + [a])
  {
  }
}

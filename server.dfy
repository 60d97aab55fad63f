/** The POST side of the request handler: admin login and booking, over an
    in-memory appointment store. */
module Server {
  import opened Text
  import opened Form
  import opened Appointments
  import opened Template
  import opened Rows

  /** A status code and the HTML body sent with it. */
  datatype Response = Response(status: int, body: string)

  const ADMIN_USERNAME: string := "admin"
  const ADMIN_PASSWORD: string := "admin123"

  const INVALID_LOGIN_PAGE: string := "<h2>Invalid login</h2><a href='/admin'>Back</a>"
  const FIELDS_REQUIRED_PAGE: string := "<h2>All fields required</h2><a href='/book'>Back</a>"
  const SLOT_TAKEN_PAGE: string := "<h2>Slot already booked</h2><a href='/book'>Choose another</a>"
  const POST_NOT_FOUND: string := "POST route not found"

  /** The booking `/submit` builds from the seven trimmed form fields. */
  function ReadBooking(form: Form): Appointment {
    Appointment(
      Get(form, "patient_name"), Get(form, "age"), Get(form, "gender"), Get(form, "phone"),
      Get(form, "doctor_type"), Get(form, "date"), Get(form, "slot"))
  }

  /** Every field is non-empty, as `all([...])` demands of the seven strings. */
  predicate Complete(a: Appointment) {
    forall i :: 0 <= i < |Fields(a)| ==> Fields(a)[i] != ""
  }

  /** Some stored booking already holds the slot of `a`. */
  ghost predicate SlotTaken(appts: seq<Appointment>, a: Appointment) {
    exists i :: 0 <= i < |appts| && SameSlot(appts[i], a)
  }

  /** The new record as the success page's context, in its key order. */
  function SuccessContext(a: Appointment): seq<(string, string)> {
    [("patient_name", a.patientName), ("age", a.age), ("gender", a.gender), ("phone", a.phone),
     ("doctor_type", a.doctorType), ("date", a.date), ("slot", a.slot)]
  }

  /** The admin dashboard's context: the number of bookings and the rows. */
  function DashboardContext(appts: seq<Appointment>): seq<(string, string)> {
    [("total", Decimal(|appts|)), ("rows", RowsMarkup(appts))]
  }

  /** What `/admin-login` answers for a form, given the dashboard template
      and the stored bookings. */
  function LoginResponse(form: Form, dashboardTemplate: string, appts: seq<Appointment>): Response {
    if Get(form, "username") == ADMIN_USERNAME && Get(form, "password") == ADMIN_PASSWORD then
      Response(200, Substitute(dashboardTemplate, DashboardContext(appts)))
    else
      Response(401, INVALID_LOGIN_PAGE)
  }

  /** What `/submit` answers for a form, and the bookings stored after it. */
  ghost function SubmitOutcome(form: Form, successTemplate: string, appts: seq<Appointment>)
    : (Response, seq<Appointment>)
  {
    var booking := ReadBooking(form);
    if !Complete(booking) then (Response(400, FIELDS_REQUIRED_PAGE), appts)
    else if SlotTaken(appts, booking) then (Response(409, SLOT_TAKEN_PAGE), appts)
    else (Response(200, Substitute(successTemplate, SuccessContext(booking))), appts + [booking])
  }

  /** A submission stores at most one booking more, only with status 200,
      and never creates a double booking. */
  lemma SubmitOutcomeKeepsStore(form: Form, successTemplate: string, appts: seq<Appointment>)
    ensures var (resp, after) := SubmitOutcome(form, successTemplate, appts);
      && (resp.status == 200 <==> after == appts + [ReadBooking(form)])
      && (resp.status != 200 <==> after == appts)
      && (NoDoubleBooking(appts) ==> NoDoubleBooking(after))
  {
    var booking := ReadBooking(form);
    if Complete(booking) && !SlotTaken(appts, booking) && NoDoubleBooking(appts) {
      AppendFreeSlot(appts, booking);
    }
    if Complete(booking) && !SlotTaken(appts, booking) {
      assert |appts + [booking]| != |appts|;
    }
  }

  /** The dashboard context carries the exact count of bookings and rows
      from which every booking can be read back, in order. */
  lemma DashboardShowsStore(appts: seq<Appointment>)
    ensures DashboardContext(appts)[0].0 == "total"
    ensures DecimalValue(DashboardContext(appts)[0].1) == |appts|
    ensures DashboardContext(appts)[1].0 == "rows"
    ensures DecodeTable(DashboardContext(appts)[1].1) == Some(appts)
  {
    DecimalRoundTrip(|appts|);
    DecodeRowsMarkup(appts);
  }

  /** The appointment store: what the data file holds between requests. */
  class AppointmentStore {
    var appointments: seq<Appointment>

    /** A fresh data file holds the empty list. */
    constructor ()
      ensures appointments == []
    {
      appointments := [];
    }

    /** `/admin-login`: the dashboard for the fixed credentials, 401
        otherwise. Reads the store and never changes it. */
    method AdminLogin(form: Form, dashboardTemplate: string) returns (resp: Response)
      ensures resp.status == 200 <==>
        Get(form, "username") == ADMIN_USERNAME && Get(form, "password") == ADMIN_PASSWORD
      ensures resp.status == 200 ==>
        resp.body == Substitute(dashboardTemplate, DashboardContext(appointments))
      ensures resp.status != 200 ==> resp == Response(401, INVALID_LOGIN_PAGE)
      ensures resp == LoginResponse(form, dashboardTemplate, appointments)
    {
      var username := Get(form, "username");
      var password := Get(form, "password");
      if username == ADMIN_USERNAME && password == ADMIN_PASSWORD {
        var appts := appointments;
        var rows := BuildRows(appts);
        var html := RenderTemplate(dashboardTemplate, [("total", Decimal(|appts|)), ("rows", rows)]);
        resp := Response(200, html);
      } else {
        resp := Response(401, INVALID_LOGIN_PAGE);
      }
    }

    /** `/submit`: 400 when a field is empty, 409 when the slot is taken,
        otherwise the booking is appended and the success page returned.
        A store without double bookings stays without them. */
    method Submit(form: Form, successTemplate: string) returns (resp: Response)
      modifies this
      ensures resp.status == 400 <==> !Complete(ReadBooking(form))
      ensures resp.status == 409 <==>
        Complete(ReadBooking(form)) && SlotTaken(old(appointments), ReadBooking(form))
      ensures resp.status == 400 || resp.status == 409 || resp.status == 200
      ensures resp.status == 400 ==> resp.body == FIELDS_REQUIRED_PAGE
      ensures resp.status == 409 ==> resp.body == SLOT_TAKEN_PAGE
      ensures resp.status != 200 ==> appointments == old(appointments)
      ensures resp.status == 200 ==>
        && appointments == old(appointments) + [ReadBooking(form)]
        && resp.body == Substitute(successTemplate, SuccessContext(ReadBooking(form)))
      ensures NoDoubleBooking(old(appointments)) ==> NoDoubleBooking(appointments)
      ensures (resp, appointments) == SubmitOutcome(form, successTemplate, old(appointments))
    {
      var booking := ReadBooking(form);
      if !Complete(booking) {
        return Response(400, FIELDS_REQUIRED_PAGE);
      }
      var appts := appointments;
      for i := 0 to |appts|
        invariant forall k :: 0 <= k < i ==> !SameSlot(appts[k], booking)
      {
        if SameSlot(appts[i], booking) {
          return Response(409, SLOT_TAKEN_PAGE);
        }
      }
      if NoDoubleBooking(appts) {
        AppendFreeSlot(appts, booking);
      }
      appointments := appts + [booking];
      var html := RenderTemplate(successTemplate, SuccessContext(booking));
      resp := Response(200, html);
    }

    /** `do_POST` after the body is parsed: dispatch on the path. */
    method HandlePost(path: string, form: Form, dashboardTemplate: string, successTemplate: string)
      returns (resp: Response)
      modifies this
      ensures path != "/submit" ==> appointments == old(appointments)
      ensures path == "/admin-login" ==>
        resp == LoginResponse(form, dashboardTemplate, old(appointments))
      ensures path == "/submit" ==>
        (resp, appointments) == SubmitOutcome(form, successTemplate, old(appointments))
      ensures path != "/admin-login" && path != "/submit" ==> resp == Response(404, POST_NOT_FOUND)
      ensures NoDoubleBooking(old(appointments)) ==> NoDoubleBooking(appointments)
      ensures |appointments| <= |old(appointments)| + 1
    {
      if path == "/admin-login" {
        resp := AdminLogin(form, dashboardTemplate);
      } else if path == "/submit" {
        resp := Submit(form, successTemplate);
      } else {
        resp := Response(404, POST_NOT_FOUND);
      }
    }
  }
}

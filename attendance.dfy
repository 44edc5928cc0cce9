/** The attendance record store (src/lib/attendance.ts): an in-memory list when no hosted
    backend is configured, the hosted table otherwise. The hosted backend's replies are
    inputs of the model. */
module Attendance {
  import opened Wrappers
  import Text
  import Backend

  /** AttendanceData: the seven form fields, plus the id and creation time the store adds. */
  datatype AttendanceData = AttendanceData(
    name: string,
    nip: string,
    position: string,
    institution: string,
    region: string,
    department: string,
    signature: string,
    createdAt: Option<string>,
    id: Option<string>)

  /** The row handed to the hosted table's insert. */
  datatype InsertRow = InsertRow(
    name: string,
    nip: string,
    position: string,
    institution: string,
    region: string,
    department: string,
    signature: string)

  datatype BackendError = BackendError(message: string)

  /** The `{success, data | error}` object both operations resolve to. */
  datatype Outcome = Success(data: seq<AttendanceData>) | Failure(error: BackendError)

  /** What the hosted backend answers: the selected rows, or an error (reported or thrown). */
  datatype RemoteReply = Rows(rows: seq<AttendanceData>) | Error(error: BackendError)

  /** The insert payload names the seven user fields one by one. */
  function InsertPayload(d: AttendanceData): InsertRow {
    InsertRow(d.name, d.nip, d.position, d.institution, d.region, d.department, d.signature)
  }

  /** The payload depends on the seven user fields only: whatever id or creation time the
      caller's object carries, it is not sent. */
  lemma InsertPayloadIgnoresServerFields(d: AttendanceData, id: Option<string>, createdAt: Option<string>)
    ensures InsertPayload(d.(id := id, createdAt := createdAt)) == InsertPayload(d)
  {
  }

  /** Two records with the same payload differ at most in id and creation time. */
  lemma InsertPayloadDeterminesUserFields(a: AttendanceData, b: AttendanceData)
    requires InsertPayload(a) == InsertPayload(b)
    ensures a.(id := None, createdAt := None) == b.(id := None, createdAt := None)
  {
  }

  /** `{...data, id, created_at}`: the record the fallback store keeps. */
  function Stamped(d: AttendanceData, nowMillis: nat, isoNow: string): (r: AttendanceData)
    ensures InsertPayload(r) == InsertPayload(d)
    ensures r.id.Some? && Text.AllAsciiDigits(r.id.value) && r.id.value != []
    ensures Text.DecimalValue(r.id.value) == nowMillis
    ensures r.createdAt == Some(isoNow)
  {
    Text.DecimalRoundTrip(nowMillis);
    d.(id := Some(Text.Decimal(nowMillis)), createdAt := Some(isoNow))
  }

  /** A hosted-backend reply as the operations report it: an error, reported or thrown,
      becomes `{success: false, error}`. */
  function FromReply(reply: RemoteReply): (r: Outcome)
    ensures r.Success? <==> reply.Rows?
    ensures reply.Rows? ==> r.data == reply.rows
    ensures reply.Error? ==> r.error == reply.error
  {
    match reply
    case Rows(rows) => Success(rows)
    case Error(e) => Failure(e)
  }

  class AttendanceService {
    /** isMockSupabase, fixed when the module is loaded. */
    const mockMode: bool
    /** mockAttendances: newest record first. */
    var mockAttendances: seq<AttendanceData>

    constructor (url: Option<string>, key: Option<string>)
      ensures mockMode == Backend.IsMockSupabase(url, key)
      ensures mockAttendances == []
    {
      mockMode := Backend.IsMockSupabase(url, key);
      mockAttendances := [];
    }

    /** saveAttendance. The clock readings (`Date.now()`, `new Date().toISOString()`) and the
        hosted backend's reply are inputs; `sent` is the insert issued to the hosted table. */
    method SaveAttendance(data: AttendanceData, nowMillis: nat, isoNow: string, reply: RemoteReply)
      returns (result: Outcome, sent: Option<InsertRow>)
      modifies this`mockAttendances
      ensures mockMode ==> sent == None
      ensures mockMode ==> mockAttendances == [Stamped(data, nowMillis, isoNow)] + old(mockAttendances)
      ensures mockMode ==> result == Success([Stamped(data, nowMillis, isoNow)])
      ensures !mockMode ==> sent == Some(InsertPayload(data))
      ensures !mockMode ==> mockAttendances == old(mockAttendances) && result == FromReply(reply)
    {
      if mockMode {
        var newAttendance := Stamped(data, nowMillis, isoNow);
        mockAttendances := [newAttendance] + mockAttendances;
        return Success([newAttendance]), None;
      }
      sent := Some(InsertPayload(data));
      match reply {
        case Error(e) =>
          result := Failure(e);
        case Rows(rows) =>
          result := Success(rows);
      }
    }

    /** getAttendances: the fallback list as it stands (newest first), or the hosted reply. */
    method GetAttendances(reply: RemoteReply) returns (result: Outcome)
      ensures mockMode ==> result == Success(mockAttendances)
      ensures !mockMode ==> (result.Success? <==> reply.Rows?)
      ensures !mockMode && reply.Rows? ==> result.data == reply.rows
      ensures !mockMode && reply.Error? ==> result.error == reply.error
    {
      if mockMode {
        return Success(mockAttendances);
      }
      match reply {
        case Error(e) =>
          result := Failure(e);
        case Rows(rows) =>
          result := Success(rows);
      }
    }
  }

  /** Two fallback saves followed by a read list the later record first. */
  method NewestFirstScenario(a: AttendanceData, b: AttendanceData, t1: nat, t2: nat, reply: RemoteReply)
    returns (listed: Outcome)
    ensures listed == Success([Stamped(b, t2, "t2"), Stamped(a, t1, "t1")])
  {
    var service := new AttendanceService(None, None);
    var r1, s1 := service.SaveAttendance(a, t1, "t1", reply);
    var r2, s2 := service.SaveAttendance(b, t2, "t2", reply);
    listed := service.GetAttendances(reply);
  }
}

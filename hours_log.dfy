/**
 * POST /hours/log: validate the body, fill in defaults, insert into
 * `registros_horas` without the `estado` column, and, only when the
 * database's error text mentions `estado`, retry once with
 * `estado = 'activo'`. The table is the list of stored rows plus the log of
 * statements issued; a fault script says which statement fails and how.
 */
module HoursLog {
  import opened Wrappers
  import opened Js
  import opened Crypto
  import opened Http
  import AuthMiddleware

  const RequiredMsg := "Fecha y horas trabajadas son requeridas"
  const DbErrorMsg := "Error registrando horas en la base de datos"
  const LoggedMsg := "Horas registradas exitosamente"
  const EstadoDefault := "activo"

  const Columns: seq<string> := ["empleado_id", "proyecto_id", "tarea_id", "fecha", "horas", "descripcion"]
  const ColumnsWithEstado: seq<string> := Columns + ["estado"]

  /** One `INSERT INTO registros_horas (columns) VALUES (?, ...)` with its parameters. */
  datatype Insert = Insert(columns: seq<string>, values: seq<Value>)

  /** A stored row: the id the database assigned and the statement that stored it. */
  datatype Row = Row(id: nat, stmt: Insert)

  /** The table: stored rows, the next AUTO_INCREMENT id and every statement issued
      so far; the length of the log is the attempt counter. */
  datatype Table = Table(rows: seq<Row>, nextId: nat, log: seq<Insert>)

  /** Stored ids are increasing and below the next AUTO_INCREMENT value, and every
      stored row was stored by a statement in the log. */
  predicate TableValid(t: Table) {
    && (forall i, j :: 0 <= i < j < |t.rows| ==> t.rows[i].id < t.rows[j].id)
    && (forall i :: 0 <= i < |t.rows| ==> t.rows[i].id < t.nextId && t.rows[i].stmt in t.log)
  }

  /** `valores`: the caller's id, never a body field, then the body's fields with
      `proyecto_id || 1`, `tarea_id || null` and `descripcion || ''`. */
  function Values(owner: nat, body: map<string, Value>): seq<Value> {
    [ Num(owner as real),
      Or(Get(body, "proyecto_id"), Num(1.0)),
      Or(Get(body, "tarea_id"), Null),
      Get(body, "fecha"),
      Get(body, "horas_trabajadas"),
      Or(Get(body, "descripcion"), Str("")) ]
  }

  function FirstInsert(owner: nat, body: map<string, Value>): Insert {
    Insert(Columns, Values(owner, body))
  }

  function RetryInsert(owner: nat, body: map<string, Value>): Insert {
    Insert(ColumnsWithEstado, Values(owner, body) + [Str(EstadoDefault)])
  }

  /** `!fecha || !horas_trabajadas` is false. */
  predicate HasRequired(body: map<string, Value>) {
    Truthy(Get(body, "fecha")) && Truthy(Get(body, "horas_trabajadas"))
  }

  /** One statement against the table: logged, and stored under the next id unless
      the fault script makes it fail. */
  function Run(t: Table, faults: nat -> Option<string>, stmt: Insert): (Table, Option<string>) {
    var error := faults(|t.log|);
    if error.Some? then (t.(log := t.log + [stmt]), error)
    else (Table(t.rows + [Row(t.nextId, stmt)], t.nextId + 1, t.log + [stmt]), None)
  }

  /** The /log handler on the caller `owner`. */
  function Log(t: Table, faults: nat -> Option<string>, owner: nat, body: map<string, Value>): (r: (Table, Reply))
    ensures r.1.status in {201, 400, 500}
    // validation comes first and leaves the table alone
    ensures r.1.status == 400 <==> !HasRequired(body)
    ensures r.1.status == 400 ==> r.0 == t && r.1.body == Message(RequiredMsg)
    // at most two attempts, logged after what was there
    ensures |t.log| <= |r.0.log| <= |t.log| + 2 && r.0.log[..|t.log|] == t.log
    ensures HasRequired(body) ==> |r.0.log| > |t.log| && r.0.log[|t.log|] == FirstInsert(owner, body)
    // the retry happens exactly when the first error mentions `estado`
    ensures |r.0.log| == |t.log| + 2 <==>
              HasRequired(body) && faults(|t.log|).Some? && Includes(faults(|t.log|).value, "estado")
    ensures |r.0.log| == |t.log| + 2 ==> r.0.log[|t.log| + 1] == RetryInsert(owner, body)
    // the answer is decided by the last attempt
    ensures r.1.status == 201 <==> HasRequired(body) && faults(|r.0.log| - 1).None?
    ensures r.1.status == 201 ==>
              && r.0.rows == t.rows + [Row(t.nextId, r.0.log[|r.0.log| - 1])] && r.0.nextId == t.nextId + 1
              && r.1.body == Logged(LoggedMsg, t.nextId)
    ensures r.1.status == 500 ==>
              r.0.rows == t.rows && r.0.nextId == t.nextId
              && r.1.body == MessageWithError(DbErrorMsg, faults(|r.0.log| - 1).value)
    ensures TableValid(t) ==> TableValid(r.0)
  {
    if !HasRequired(body) then
      (t, Reply(400, Message(RequiredMsg)))
    else
      var first := Run(t, faults, FirstInsert(owner, body));
      if first.1.None? then
        (first.0, Reply(201, Logged(LoggedMsg, t.nextId)))
      else if Includes(first.1.value, "estado") then
        var retry := Run(first.0, faults, RetryInsert(owner, body));
        if retry.1.None? then
          (retry.0, Reply(201, Logged(LoggedMsg, first.0.nextId)))
        else
          (retry.0, Reply(500, MessageWithError(DbErrorMsg, retry.1.value)))
      else
        (first.0, Reply(500, MessageWithError(DbErrorMsg, first.1.value)))
  }

  /** Every statement the handler issues carries the caller's id as `empleado_id`
      and the body's fields with their defaults; the retry adds only `'activo'`;
      an `empleado_id` in the body changes nothing. */
  lemma InsertedValues(t: Table, faults: nat -> Option<string>, owner: nat, body: map<string, Value>, forged: Value)
    ensures var r := Log(t, faults, owner, body);
            forall i :: |t.log| <= i < |r.0.log| ==>
              r.0.log[i].values[..6] == Values(owner, body) && r.0.log[i].values[0] == Num(owner as real)
    ensures Log(t, faults, owner, body["empleado_id" := forged]) == Log(t, faults, owner, body)
    ensures RetryInsert(owner, body).values == FirstInsert(owner, body).values + [Str(EstadoDefault)]
  {
    var r := Log(t, faults, owner, body);
    forall i | |t.log| <= i < |r.0.log|
      ensures r.0.log[i].values[..6] == Values(owner, body)
    {
      assert r.0.log[i] == FirstInsert(owner, body) || r.0.log[i] == RetryInsert(owner, body);
    }
    var body' := body["empleado_id" := forged];
    assert forall k :: k != "empleado_id" ==> Get(body', k) == Get(body, k);
    assert Values(owner, body') == Values(owner, body);
  }

  /** The defaults: a falsy `proyecto_id` becomes 1, a falsy `tarea_id` null and a
      falsy `descripcion` ''; truthy ones pass through unchanged. */
  lemma Defaults(owner: nat, body: map<string, Value>)
    ensures var v := Values(owner, body);
            && v[1] == (if Truthy(Get(body, "proyecto_id")) then Get(body, "proyecto_id") else Num(1.0))
            && v[2] == (if Truthy(Get(body, "tarea_id")) then Get(body, "tarea_id") else Null)
            && v[3] == Get(body, "fecha") && v[4] == Get(body, "horas_trabajadas")
            && v[5] == (if Truthy(Get(body, "descripcion")) then Get(body, "descripcion") else Str(""))
  {
  }

  /** Only falsiness is checked: a negative number of hours is sent to the database. */
  lemma NegativeHoursAttempted(t: Table, faults: nat -> Option<string>, owner: nat, fecha: string)
    requires fecha != ""
    ensures var body := map["fecha" := Str(fecha), "horas_trabajadas" := Num(-1.0)];
            var r := Log(t, faults, owner, body);
            r.1.status != 400 && r.0.log[|t.log|] == FirstInsert(owner, body)
  {
  }

  /** The schema retry: a first failure that names the `estado` column and a
      second attempt that succeeds store the retried row and answer 201 with its id. */
  lemma EstadoRetryExample(owner: nat)
    ensures var faults := (k: nat) => if k == 0 then Some("Data truncated for column 'estado' at row 1") else None;
            var body := map["fecha" := Str("2024-06-01"), "horas_trabajadas" := Num(8.0)];
            var r := Log(Table([], 1, []), faults, owner, body);
            && r.1 == Reply(201, Logged(LoggedMsg, 1))
            && r.0.log == [FirstInsert(owner, body), RetryInsert(owner, body)]
            && r.0.rows == [Row(1, RetryInsert(owner, body))]
  {
    var msg := "Data truncated for column 'estado' at row 1";
    assert OccursAt(msg, "estado", 27);
  }

  /** A first failure for any other reason is answered 500 with that text, no retry. */
  lemma OtherErrorNoRetry(t: Table, faults: nat -> Option<string>, owner: nat, body: map<string, Value>)
    requires HasRequired(body) && faults(|t.log|).Some? && !Includes(faults(|t.log|).value, "estado")
    ensures var r := Log(t, faults, owner, body);
            && r.1 == Reply(500, MessageWithError(DbErrorMsg, faults(|t.log|).value))
            && r.0 == t.(log := t.log + [FirstInsert(owner, body)])
  {
  }

  /** A failed retry is answered 500 with the retry's text; there is no third attempt. */
  lemma FailedRetryIsFinal(t: Table, faults: nat -> Option<string>, owner: nat, body: map<string, Value>)
    requires HasRequired(body) && faults(|t.log|).Some? && Includes(faults(|t.log|).value, "estado")
    requires faults(|t.log| + 1).Some?
    ensures var r := Log(t, faults, owner, body);
            && r.1 == Reply(500, MessageWithError(DbErrorMsg, faults(|t.log| + 1).value))
            && r.0 == t.(log := t.log + [FirstInsert(owner, body), RetryInsert(owner, body)])
  {
  }

  /** `registros_horas` as the handler sees it through the driver. */
  class HoursTable {
    var rows: seq<Row>
    var nextId: nat
    var log: seq<Insert>
    /** Statement number k fails with this error text, if any. */
    const faults: nat -> Option<string>

    function State(): Table
      reads this
    {
      Table(rows, nextId, log)
    }

    constructor (faults: nat -> Option<string>)
      ensures State() == Table([], 1, []) && this.faults == faults
    {
      rows := [];
      nextId := 1;
      log := [];
      this.faults := faults;
    }

    /** `db.query(sql, valores, callback)` for one INSERT. */
    method Query(stmt: Insert) returns (error: Option<string>, insertId: nat)
      modifies this
      ensures log == old(log) + [stmt]
      ensures error == faults(|old(log)|)
      ensures error.Some? ==> rows == old(rows) && nextId == old(nextId)
      ensures error.None? ==> insertId == old(nextId) && nextId == old(nextId) + 1
                              && rows == old(rows) + [Row(insertId, stmt)]
    {
      error := faults(|log|);
      log := log + [stmt];
      insertId := nextId;
      if error.None? {
        rows := rows + [Row(insertId, stmt)];
        nextId := nextId + 1;
      }
    }
  }

  /** The /log handler; it runs after the gate, so `req.user` is set. */
  method HandleLog(db: HoursTable, req: Request, res: Response)
    requires req.user.Some?
    modifies db, res
    ensures db.State() == Log(old(db.State()), db.faults, req.user.value.id, req.body).0
    ensures res.replies == old(res.replies) + [Log(old(db.State()), db.faults, req.user.value.id, req.body).1]
  {
    var fecha, horas := Get(req.body, "fecha"), Get(req.body, "horas_trabajadas");
    var empleadoId := req.user.value.id;
    if !Truthy(fecha) || !Truthy(horas) {
      res.Send(Reply(400, Message(RequiredMsg)));
      return;
    }
    var valores := Values(empleadoId, req.body);
    var error, insertId := db.Query(Insert(Columns, valores));
    if error.None? {
      res.Send(Reply(201, Logged(LoggedMsg, insertId)));
      return;
    }
    if Includes(error.value, "estado") {
      var valoresWithEstado := valores + [Str(EstadoDefault)];
      var error2, insertId2 := db.Query(Insert(ColumnsWithEstado, valoresWithEstado));
      if error2.Some? {
        res.Send(Reply(500, MessageWithError(DbErrorMsg, error2.value)));
        return;
      }
      res.Send(Reply(201, Logged(LoggedMsg, insertId2)));
    } else {
      res.Send(Reply(500, MessageWithError(DbErrorMsg, error.value)));
    }
  }

  /** `router.post('/log', verifyToken, handler)`: nothing reaches the table
      unless the gate verified the token, and then the owner is the token's id. */
  method PostLog(db: HoursTable, req: Request, res: Response, next: Next, verify: string -> Option<Claims>)
    modifies db, req, res, next
    ensures match AuthMiddleware.Gate(req.authorization, verify)
            case Reject(reply) =>
              db.State() == old(db.State()) && res.replies == old(res.replies) + [reply]
            case Proceed(c) =>
              && req.user == Some(c)
              && db.State() == Log(old(db.State()), db.faults, c.id, req.body).0
              && res.replies == old(res.replies) + [Log(old(db.State()), db.faults, c.id, req.body).1]
  {
    var before := next.calls;
    AuthMiddleware.VerifyToken(req, res, next, verify);
    if next.calls > before {
      HandleLog(db, req, res);
    }
  }
}

/** The four gatepass handlers (routes/gatepass.js) over an in-memory store of
    documents. Each handler is a method of GatepassStore that assigns the fields
    of the document it loaded, and is proved equal to a function on the store's
    value: RequestResult, ApproveResult, VerifyResult. What the handlers promise
    is proved about those functions. */
module GatepassRoutes {
  import opened Wrappers
  import opened Users
  import opened GatepassModel

  /** The gatepass collection as a value: documents by id. */
  type Store = map<ObjectId, Pass>

  /** Every document is filed under its own id. */
  predicate WellKeyed(db: Store) {
    forall k :: k in db ==> db[k].id == k
  }

  /** What a handler answers. */
  datatype Reply =
    | Created(pass: Pass)           // 201 with the new document
    | Listed(passes: seq<Pass>)     // 200 with the documents found
    | Updated(pass: Pass)           // 200 with the saved document
    | Invalid                       // 400 with the validator's error list
    | BadRequest(message: string)   // 400 with a message
    | NotFound(message: string)     // 404 with a message
    | Forbidden                     // refused by checkRole before the handler runs
    | ServerError                   // 500: the save failed

  // ---------------------------------------------------------------------------
  // POST /request
  // ---------------------------------------------------------------------------

  /** The request body after express-validator: facultyId is None when it is not
      a valid object id, outTime and inTime are None when they are not ISO 8601
      dates. */
  datatype RequestBody = RequestBody(
    facultyId: Option<ObjectId>,
    purpose: string,
    outTime: Option<Time>,
    inTime: Option<Time>)

  /** The validators of POST /request: an object id, a purpose that is not blank
      once trimmed, and two dates. */
  predicate RequestBodyValid(b: RequestBody) {
    b.facultyId.Some? && Trim(b.purpose) != "" && b.outTime.Some? && b.inTime.Some?
  }

  /** User.findOne({ _id: id, role: 'faculty' }) finds a user. */
  predicate IsFacultyUser(users: map<ObjectId, Role>, id: ObjectId) {
    id in users && users[id] == Faculty
  }

  /** POST /request by caller, creating the document newId at time now. */
  function RequestResult(db: Store, users: map<ObjectId, Role>, caller: User, body: RequestBody,
                         newId: ObjectId, now: Time): (r: (Reply, Store))
    ensures r.0.Created? || r.1 == db
    ensures r.0.Created? ==> r.1 == db[newId := r.0.pass] && r.0.pass.id == newId
  {
    if caller.role != Student then (Forbidden, db)
    else if !RequestBodyValid(body) then (Invalid, db)
    else if !IsFacultyUser(users, body.facultyId.value) then (BadRequest("Faculty not found"), db)
    else
      var p := NewPass(newId, caller.id, body.facultyId.value, Trim(body.purpose),
                       body.outTime.value, body.inTime.value, now).Saved(now);
      (Created(p), db[newId := p])
  }

  // ---------------------------------------------------------------------------
  // PUT /approve/:id
  // ---------------------------------------------------------------------------

  /** The body of PUT /approve/:id. */
  datatype ApprovalBody = ApprovalBody(status: string, rejectionReason: Option<string>)

  /** The validators of PUT /approve/:id: the status is "approved" or
      "rejected", and a rejection carries a reason that is not empty. The reason
      is not trimmed before this test. */
  predicate ApprovalBodyValid(b: ApprovalBody) {
    && (b.status == "approved" || b.status == "rejected")
    && (b.status == "rejected" ==> b.rejectionReason.Some? && b.rejectionReason.value != "")
  }

  /** findOne({ _id: id, faculty: facultyId, status: 'pending' }) finds the document. */
  predicate AwaitsDecision(db: Store, id: ObjectId, facultyId: ObjectId) {
    id in db && db[id].faculty == facultyId && db[id].status == Pending
  }

  /** The unique index on securityCode: some other document already holds code. */
  predicate CodeTaken(db: Store, id: ObjectId, code: string) {
    exists k :: k in db && k != id && db[k].securityCode == Some(code)
  }

  /** PUT /approve/:id by caller at time now; raw is the base-36 rendering of
      the random number generateSecurityCode draws. */
  function ApproveResult(db: Store, caller: User, id: ObjectId, body: ApprovalBody,
                         raw: string, now: Time): (r: (Reply, Store))
    ensures r.0.Updated? || r.1 == db
    ensures r.0.Updated? ==> id in db && r.1 == db[id := r.0.pass]
  {
    if caller.role != Faculty then (Forbidden, db)
    else if !ApprovalBodyValid(body) then (Invalid, db)
    else if !AwaitsDecision(db, id, caller.id) then (NotFound("Gatepass request not found"), db)
    else if body.status == "rejected" then
      var p := db[id].(status := Rejected, rejectionReason := Some(Trim(body.rejectionReason.value))).Saved(now);
      (Updated(p), db[id := p])
    else
      var code := CodeFromRendering(raw);
      if CodeTaken(db, id, code) then (ServerError, db)
      else
        var p := db[id].(status := Approved, securityCode := Some(code)).Saved(now);
        (Updated(p), db[id := p])
  }

  // ---------------------------------------------------------------------------
  // PUT /verify/:id
  // ---------------------------------------------------------------------------

  /** findOne({ _id: id, status: 'approved', securityCode: code }) finds the document. */
  predicate AwaitsVerification(db: Store, id: ObjectId, code: string) {
    id in db && db[id].status == Approved && db[id].securityCode == Some(code)
  }

  /** PUT /verify/:id by caller with the code typed in, at time now. */
  function VerifyResult(db: Store, caller: User, id: ObjectId, code: string, now: Time): (r: (Reply, Store))
    ensures r.0.Updated? || r.0 == BadRequest("Gatepass has expired") || r.1 == db
    ensures r.1 == db || (id in db && id in r.1 && r.1 == db[id := r.1[id]])
    ensures r.0.Updated? ==> id in db && r.1 == db[id := r.0.pass]
  {
    if caller.role != Security then (Forbidden, db)
    else if code == "" then (Invalid, db)
    else if !AwaitsVerification(db, id, code) then (NotFound("Invalid gatepass or security code"), db)
    else if db[id].IsExpired(now) then
      var p := db[id].(status := Expired).Saved(now);
      (BadRequest("Gatepass has expired"), db[id := p])
    else
      var p := db[id].(status := Verified, verifiedBy := Some(caller.id), verifiedAt := Some(now)).Saved(now);
      (Updated(p), db[id := p])
  }

  // ---------------------------------------------------------------------------
  // GET /requests
  // ---------------------------------------------------------------------------

  /** The query object the handler builds: a field that is Some must match. */
  datatype Query = Query(student: Option<ObjectId>, faculty: Option<ObjectId>, status: Option<Status>)

  /** The switch on the caller's role: the query it builds selects exactly the
      passes visible to the caller. */
  function QueryFor(caller: User): (q: Query)
    ensures forall p: Pass :: Matches(q, p) <==> VisibleTo(caller, p)
  {
    match caller.role
    case Student => Query(Some(caller.id), None, None)
    case Faculty => Query(None, Some(caller.id), None)
    case Security => Query(None, None, Some(Approved))
    case OtherRole => Query(None, None, None)
  }

  predicate Matches(q: Query, p: Pass) {
    && (q.student.Some? ==> p.student == q.student.value)
    && (q.faculty.Some? ==> p.faculty == q.faculty.value)
    && (q.status.Some? ==> p.status == q.status.value)
  }

  /** Who may see which gatepass: a student their own, a faculty member those
      addressed to them, security the approved ones, any other role all. */
  predicate VisibleTo(caller: User, p: Pass) {
    match caller.role
    case Student => p.student == caller.id
    case Faculty => p.faculty == caller.id
    case Security => p.status == Approved
    case OtherRole => true
  }

  /** sort('-createdAt'): newest first. */
  predicate NewestFirst(rows: seq<Pass>) {
    forall i, j :: 0 <= i < j < |rows| ==> rows[i].createdAt >= rows[j].createdAt
  }

  predicate DistinctIds(rows: seq<Pass>) {
    forall i, j :: 0 <= i < j < |rows| ==> rows[i].id != rows[j].id
  }

  /** rows with p inserted at position pos. */
  function InsertAt(rows: seq<Pass>, p: Pass, pos: nat): (r: seq<Pass>)
    requires pos <= |rows|
    ensures |r| == |rows| + 1
    ensures forall i :: 0 <= i < pos ==> r[i] == rows[i]
    ensures r[pos] == p
    ensures forall i :: pos < i < |r| ==> r[i] == rows[i - 1]
  {
    rows[..pos] + [p] + rows[pos..]
  }

  /** Inserting p at pos keeps the rows newest first when every row before pos
      is at least as new as p and every row from pos on is older; the rows are
      then those before and p, and their ids stay distinct when p's id is new. */
  lemma InsertNewestFirst(rows: seq<Pass>, p: Pass, pos: nat)
    requires pos <= |rows| && NewestFirst(rows) && DistinctIds(rows)
    requires forall i :: 0 <= i < pos ==> rows[i].createdAt >= p.createdAt
    requires forall i :: pos <= i < |rows| ==> rows[i].createdAt < p.createdAt
    requires forall x :: x in rows ==> x.id != p.id
    ensures NewestFirst(InsertAt(rows, p, pos))
    ensures DistinctIds(InsertAt(rows, p, pos))
    ensures forall x :: x in InsertAt(rows, p, pos) <==> x == p || x in rows
  {
    var r := InsertAt(rows, p, pos);
    forall i, j | 0 <= i < j < |r| ensures r[i].createdAt >= r[j].createdAt && r[i].id != r[j].id {
      if j < pos {
      } else if j == pos {
      } else if i < pos {
      } else if i == pos {
        assert r[j] == rows[j - 1];
      } else {
        assert r[i] == rows[i - 1] && r[j] == rows[j - 1];
      }
    }
    forall x | x in r ensures x == p || x in rows {
      var i :| 0 <= i < |r| && r[i] == x;
      if i < pos {
        assert rows[i] == x;
      } else if i > pos {
        assert rows[i - 1] == x;
      }
    }
    forall x | x in rows ensures x in r {
      var i :| 0 <= i < |rows| && rows[i] == x;
      if i < pos {
        assert r[i] == x;
      } else {
        assert r[i + 1] == x;
      }
    }
  }

  /** find(q).sort('-createdAt'): every document matching q, each once, newest
      first. The order among documents created at the same instant is left open. */
  method Select(db: Store, q: Query) returns (rows: seq<Pass>)
    requires WellKeyed(db)
    ensures forall i :: 0 <= i < |rows| ==> rows[i].id in db && db[rows[i].id] == rows[i] && Matches(q, rows[i])
    ensures forall k :: k in db && Matches(q, db[k]) ==> db[k] in rows
    ensures DistinctIds(rows)
    ensures NewestFirst(rows)
  {
    rows := [];
    var todo := db.Keys;
    while todo != {}
      invariant todo <= db.Keys
      invariant forall x :: x in rows ==> x.id in db && x.id !in todo && db[x.id] == x && Matches(q, x)
      invariant forall k :: k in db && k !in todo && Matches(q, db[k]) ==> db[k] in rows
      invariant DistinctIds(rows)
      invariant NewestFirst(rows)
      decreases |todo|
    {
      var k :| k in todo;
      todo := todo - {k};
      var p := db[k];
      if Matches(q, p) {
        var pos := 0;
        while pos < |rows| && rows[pos].createdAt >= p.createdAt
          invariant 0 <= pos <= |rows|
          invariant forall i :: 0 <= i < pos ==> rows[i].createdAt >= p.createdAt
        {
          pos := pos + 1;
        }
        InsertNewestFirst(rows, p, pos);
        rows := InsertAt(rows, p, pos);
      }
    }
  }

  // ---------------------------------------------------------------------------
  // What the handlers keep true of the collection
  // ---------------------------------------------------------------------------

  /** The lifecycle's steps: a pending pass is approved or rejected, and expires
      when approved after its return time; an approved pass is verified or
      expires. Rejected, verified and expired passes never change status. */
  predicate Step(a: Status, b: Status) {
    match a
    case Pending => b == Approved || b == Rejected || b == Expired
    case Approved => b == Verified || b == Expired
    case _ => false
  }

  /** The request itself: who asked whom, why, and for when. */
  predicate SameRequest(p: Pass, q: Pass) {
    && p.id == q.id && p.student == q.student && p.faculty == q.faculty
    && p.purpose == q.purpose && p.outTime == q.outTime && p.inTime == q.inTime
    && p.createdAt == q.createdAt
  }

  /** From db to db', no document disappears, every document keeps its request
      and its status or takes one step, and every new document is pending. */
  predicate Evolves(db: Store, db': Store) {
    && db.Keys <= db'.Keys
    && (forall k :: k in db ==> SameRequest(db[k], db'[k])
                                && (db'[k].status == db[k].status || Step(db[k].status, db'[k].status)))
    && (forall k :: k in db' && k !in db ==> db'[k].status == Pending)
  }

  /** The optional fields agree with the status: a code exactly once approved,
      a reason exactly when rejected, the verifier and the time exactly when
      verified. */
  predicate Coherent(p: Pass) {
    && (p.securityCode.Some? <==> p.status in {Approved, Verified, Expired})
    && (p.rejectionReason.Some? <==> p.status == Rejected)
    && (p.verifiedBy.Some? <==> p.status == Verified)
    && (p.verifiedAt.Some? <==> p.status == Verified)
  }

  predicate AllCoherent(db: Store) {
    forall k :: k in db ==> Coherent(db[k])
  }

  /** A new request is answered 201 exactly when a student sends a valid body
      naming an existing faculty member; it then adds one pending document filed
      under the new id, from the caller to that faculty member, with the trimmed
      purpose. An unknown faculty member is a 400. Otherwise nothing changes. */
  lemma RequestOutcome(db: Store, users: map<ObjectId, Role>, caller: User, body: RequestBody,
                       newId: ObjectId, now: Time)
    requires newId !in db
    ensures var (reply, db') := RequestResult(db, users, caller, body, newId, now);
      && (reply.Created? <==> caller.role == Student && RequestBodyValid(body)
                              && IsFacultyUser(users, body.facultyId.value))
      && (!reply.Created? ==> db' == db)
      && (caller.role == Student && RequestBodyValid(body) && !IsFacultyUser(users, body.facultyId.value)
          ==> reply == BadRequest("Faculty not found"))
      && (reply.Created? ==>
            && db' == db[newId := reply.pass]
            && reply.pass.id == newId && reply.pass.status == Pending
            && reply.pass.student == caller.id && reply.pass.faculty == body.facultyId.value
            && reply.pass.purpose == Trim(body.purpose) && reply.pass.createdAt == now
            && reply.pass.outTime == body.outTime.value && reply.pass.inTime == body.inTime.value
            && Coherent(reply.pass))
  {
    if caller.role == Student && RequestBodyValid(body) && IsFacultyUser(users, body.facultyId.value) {
      var p := NewPass(newId, caller.id, body.facultyId.value, Trim(body.purpose),
                       body.outTime.value, body.inTime.value, now);
      TrimIdempotent(body.purpose);
      assert p.Saved(now) == p;
    }
  }

  /** Approval acts only on a pending document addressed to the calling faculty
      member, with a valid body; on any other document it answers 404 and leaves
      the store as it is. */
  lemma ApproveNeedsPendingOwnPass(db: Store, caller: User, id: ObjectId, body: ApprovalBody,
                                   raw: string, now: Time)
    ensures var (reply, db') := ApproveResult(db, caller, id, body, raw, now);
      && (reply.NotFound? <==> caller.role == Faculty && ApprovalBodyValid(body)
                               && !AwaitsDecision(db, id, caller.id))
      && (db' != db ==> caller.role == Faculty && ApprovalBodyValid(body) && AwaitsDecision(db, id, caller.id))
      && (!reply.Updated? ==> db' == db)
  {
  }

  /** What a decision does to the pending document: a rejection stores the
      trimmed reason and keeps the code as it was; an approval stores the code
      generated from raw, unless another document holds that code (then the save
      fails and nothing changes), and leaves the pass expired instead of
      approved when its return time has passed. Nothing else changes. */
  lemma ApproveOutcome(db: Store, caller: User, id: ObjectId, body: ApprovalBody,
                       raw: string, now: Time)
    requires caller.role == Faculty && ApprovalBodyValid(body) && AwaitsDecision(db, id, caller.id)
    ensures var (reply, db') := ApproveResult(db, caller, id, body, raw, now);
      && (body.status == "rejected" ==>
            && reply == Updated(db[id].(status := Rejected, rejectionReason := Some(Trim(body.rejectionReason.value))))
            && reply.pass.securityCode == db[id].securityCode)
      && (body.status == "approved" && CodeTaken(db, id, CodeFromRendering(raw)) ==>
            reply == ServerError && db' == db)
      && (body.status == "approved" && !CodeTaken(db, id, CodeFromRendering(raw)) ==>
            && reply.Updated?
            && reply.pass == db[id].(status := reply.pass.status, securityCode := Some(CodeFromRendering(raw)))
            && reply.pass.status == (if now > db[id].inTime then Expired else Approved))
      && (reply.Updated? ==> db' == db[id := reply.pass])
  {
  }

  /** Verification acts only on an approved document whose stored code is
      exactly the code typed in; on any other it answers 404 and leaves the store
      as it is. */
  lemma VerifyNeedsApprovedExactCode(db: Store, caller: User, id: ObjectId, code: string, now: Time)
    ensures var (reply, db') := VerifyResult(db, caller, id, code, now);
      && (reply.NotFound? <==> caller.role == Security && code != "" && !AwaitsVerification(db, id, code))
      && (db' != db ==> caller.role == Security && AwaitsVerification(db, id, code))
  {
  }

  /** On an approved document with the right code, verification after the
      return time marks it expired and answers 400 without recording a
      verifier; otherwise it marks it verified by the caller at time now. */
  lemma VerifyOutcome(db: Store, caller: User, id: ObjectId, code: string, now: Time)
    requires caller.role == Security && code != "" && AwaitsVerification(db, id, code)
    ensures var (reply, db') := VerifyResult(db, caller, id, code, now);
      && (now > db[id].inTime ==>
            && reply == BadRequest("Gatepass has expired")
            && db' == db[id := db[id].(status := Expired)])
      && (now <= db[id].inTime ==>
            && reply == Updated(db[id].(status := Verified, verifiedBy := Some(caller.id), verifiedAt := Some(now)))
            && db' == db[id := reply.pass])
  {
  }

  /** Replacing one document by a coherent successor that keeps its request and
      takes at most one step moves the collection along the lifecycle. */
  lemma UpdateFollowsLifecycle(db: Store, id: ObjectId, p: Pass)
    requires id in db && AllCoherent(db) && Coherent(p) && SameRequest(db[id], p)
    requires p.status == db[id].status || Step(db[id].status, p.status)
    ensures Evolves(db, db[id := p]) && AllCoherent(db[id := p])
  {
  }

  /** POST /request moves the collection along the lifecycle and keeps it coherent. */
  lemma RequestFollowsLifecycle(db: Store, users: map<ObjectId, Role>, caller: User,
                                body: RequestBody, newId: ObjectId, now: Time)
    requires newId !in db && AllCoherent(db)
    ensures var db' := RequestResult(db, users, caller, body, newId, now).1;
      Evolves(db, db') && AllCoherent(db')
  {
    RequestOutcome(db, users, caller, body, newId, now);
  }

  /** PUT /approve/:id moves the collection along the lifecycle and keeps it coherent. */
  lemma ApproveFollowsLifecycle(db: Store, caller: User, id: ObjectId, body: ApprovalBody,
                                raw: string, now: Time)
    requires AllCoherent(db)
    ensures var db' := ApproveResult(db, caller, id, body, raw, now).1;
      Evolves(db, db') && AllCoherent(db')
  {
    var (reply, db') := ApproveResult(db, caller, id, body, raw, now);
    if db' != db {
      ApproveOutcome(db, caller, id, body, raw, now);
      UpdateFollowsLifecycle(db, id, reply.pass);
    }
  }

  /** PUT /verify/:id moves the collection along the lifecycle and keeps it coherent. */
  lemma VerifyFollowsLifecycle(db: Store, caller: User, id: ObjectId, code: string, now: Time)
    requires AllCoherent(db)
    ensures var db' := VerifyResult(db, caller, id, code, now).1;
      Evolves(db, db') && AllCoherent(db')
  {
    var (reply, db') := VerifyResult(db, caller, id, code, now);
    if db' != db {
      VerifyOutcome(db, caller, id, code, now);
      UpdateFollowsLifecycle(db, id, db'[id]);
    }
  }

  /** A rejection reason of blanks passes the validator, which does not trim it,
      and is stored empty by the schema, which does. */
  lemma BlankReasonIsStoredEmpty(db: Store, caller: User, id: ObjectId, raw: string, now: Time)
    requires caller.role == Faculty && AwaitsDecision(db, id, caller.id)
    ensures ApprovalBodyValid(ApprovalBody("rejected", Some("  ")))
    ensures ApproveResult(db, caller, id, ApprovalBody("rejected", Some("  ")), raw, now).0.pass.rejectionReason
            == Some("")
  {
    TrimBlank("  ");
  }

  // ---------------------------------------------------------------------------
  // The collection of loaded documents
  // ---------------------------------------------------------------------------

  class GatepassStore {
    var passes: map<ObjectId, Gatepass>

    /** Every document object is filed under its own id, so distinct ids hold
        distinct objects. */
    ghost predicate Valid()
      reads this
    {
      forall k :: k in passes ==> passes[k].id == k
    }

    /** The collection's current value. */
    function Snapshot(): Store
      reads this, passes.Values
    {
      map k | k in passes :: passes[k].Value()
    }

    constructor ()
      ensures Valid() && Snapshot() == map[]
    {
      passes := map[];
    }

    /** POST /request; newId is the fresh object id the database assigns. */
    method Request(users: map<ObjectId, Role>, caller: User, body: RequestBody,
                   newId: ObjectId, now: Time) returns (reply: Reply)
      requires Valid() && newId !in passes
      modifies this
      ensures Valid()
      ensures (reply, Snapshot()) == RequestResult(old(Snapshot()), users, caller, body, newId, now)
    {
      ghost var db0 := Snapshot();
      if caller.role != Student {
        return Forbidden;
      }
      if !RequestBodyValid(body) {
        return Invalid;
      }
      var facultyId := body.facultyId.value;
      if !IsFacultyUser(users, facultyId) {
        return BadRequest("Faculty not found");
      }
      var g := new Gatepass(newId, caller.id, facultyId, Trim(body.purpose),
                            body.outTime.value, body.inTime.value, now);
      g.PreSave(now);
      assert Snapshot() == db0;
      Insert(g);
      reply := Created(g.Value());
    }

    /** Files a new document under its own id. */
    method Insert(g: Gatepass)
      requires Valid() && g.id !in passes
      modifies this
      ensures Valid() && passes == old(passes)[g.id := g]
      ensures Snapshot() == old(Snapshot())[g.id := g.Value()]
    {
      ghost var db0 := Snapshot();
      ghost var before := passes;
      passes := passes[g.id := g];
      forall k | k in passes
        ensures k in db0[g.id := g.Value()] && Snapshot()[k] == db0[g.id := g.Value()][k]
      {
        if k != g.id { assert passes[k] == before[k]; }
      }
      assert Snapshot().Keys == db0[g.id := g.Value()].Keys;
    }

    /** GET /requests: the documents the caller may see, newest first. */
    method ListRequests(caller: User) returns (reply: Reply)
      requires Valid()
      ensures reply.Listed?
      ensures forall i :: 0 <= i < |reply.passes| ==>
        reply.passes[i].id in Snapshot() && Snapshot()[reply.passes[i].id] == reply.passes[i]
        && VisibleTo(caller, reply.passes[i])
      ensures forall k :: k in Snapshot() && VisibleTo(caller, Snapshot()[k]) ==> Snapshot()[k] in reply.passes
      ensures DistinctIds(reply.passes) && NewestFirst(reply.passes)
    {
      var db := Snapshot();
      var q := QueryFor(caller);
      var rows := Select(db, q);
      reply := Listed(rows);
    }

    /** PUT /approve/:id; raw is the base-36 rendering of the random number. */
    method Approve(caller: User, id: ObjectId, body: ApprovalBody, raw: string, now: Time)
      returns (reply: Reply)
      requires Valid()
      modifies passes.Values
      ensures Valid()
      ensures (reply, Snapshot()) == ApproveResult(old(Snapshot()), caller, id, body, raw, now)
    {
      if caller.role != Faculty {
        return Forbidden;
      }
      if !ApprovalBodyValid(body) {
        return Invalid;
      }
      if !(id in passes && passes[id].faculty == caller.id && passes[id].status == Pending) {
        return NotFound("Gatepass request not found");
      }
      if body.status == "rejected" {
        reply := Reject(id, body.rejectionReason.value, now);
      } else {
        if CodeTaken(Snapshot(), id, CodeFromRendering(raw)) {
          // The unique index refuses the save: the document stays as stored.
          return ServerError;
        }
        reply := Accept(id, raw, now);
      }
    }

    /** The approve handler's edits for a rejection, then the save. */
    method Reject(id: ObjectId, reason: string, now: Time) returns (reply: Reply)
      requires Valid() && id in passes
      modifies passes[id]
      ensures reply.Updated? && Snapshot() == old(Snapshot())[id := reply.pass]
      ensures reply.pass == old(Snapshot())[id].(status := Rejected, rejectionReason := Some(Trim(reason))).Saved(now)
    {
      ghost var db0 := Snapshot();
      var g := passes[id];
      g.status := Rejected;
      g.rejectionReason := Some(Trim(reason));
      g.PreSave(now);
      reply := Updated(g.Value());
      forall k | k in passes
        ensures k in db0 && Snapshot()[k] == db0[id := g.Value()][k]
      {
        if k != id { assert passes[k].id == k; }
      }
      assert Snapshot().Keys == db0.Keys;
    }

    /** The approve handler's edits for an approval, then the save. */
    method Accept(id: ObjectId, raw: string, now: Time) returns (reply: Reply)
      requires Valid() && id in passes
      modifies passes[id]
      ensures reply.Updated? && Snapshot() == old(Snapshot())[id := reply.pass]
      ensures reply.pass == old(Snapshot())[id].(status := Approved, securityCode := Some(CodeFromRendering(raw))).Saved(now)
    {
      ghost var db0 := Snapshot();
      var g := passes[id];
      g.status := Approved;
      var code := g.GenerateSecurityCode(raw);
      g.PreSave(now);
      reply := Updated(g.Value());
      forall k | k in passes
        ensures k in db0 && Snapshot()[k] == db0[id := g.Value()][k]
      {
        if k != id { assert passes[k].id == k; }
      }
      assert Snapshot().Keys == db0.Keys;
    }

    /** PUT /verify/:id with the code typed in. */
    method Verify(caller: User, id: ObjectId, code: string, now: Time) returns (reply: Reply)
      requires Valid()
      modifies passes.Values
      ensures Valid()
      ensures (reply, Snapshot()) == VerifyResult(old(Snapshot()), caller, id, code, now)
    {
      if caller.role != Security {
        return Forbidden;
      }
      if code == "" {
        return Invalid;
      }
      if !(id in passes && passes[id].status == Approved && passes[id].securityCode == Some(code)) {
        return NotFound("Invalid gatepass or security code");
      }
      if passes[id].Value().IsExpired(now) {
        Expire(id, now);
        return BadRequest("Gatepass has expired");
      }
      reply := MarkVerified(id, caller.id, now);
    }

    /** The verify handler's edits for an expired pass, then the save. */
    method Expire(id: ObjectId, now: Time)
      requires Valid() && id in passes
      modifies passes[id]
      ensures Snapshot() == old(Snapshot())[id := old(Snapshot())[id].(status := Expired).Saved(now)]
    {
      ghost var db0 := Snapshot();
      var g := passes[id];
      g.status := Expired;
      g.PreSave(now);
      forall k | k in passes
        ensures k in db0 && Snapshot()[k] == db0[id := g.Value()][k]
      {
        if k != id { assert passes[k].id == k; }
      }
      assert Snapshot().Keys == db0.Keys;
    }

    /** The verify handler's edits for a pass let through, then the save. */
    method MarkVerified(id: ObjectId, officer: ObjectId, now: Time) returns (reply: Reply)
      requires Valid() && id in passes
      modifies passes[id]
      ensures reply.Updated? && Snapshot() == old(Snapshot())[id := reply.pass]
      ensures reply.pass == old(Snapshot())[id].(status := Verified, verifiedBy := Some(officer), verifiedAt := Some(now)).Saved(now)
    {
      ghost var db0 := Snapshot();
      var g := passes[id];
      g.status := Verified;
      g.verifiedBy := Some(officer);
      g.verifiedAt := Some(now);
      g.PreSave(now);
      reply := Updated(g.Value());
      forall k | k in passes
        ensures k in db0 && Snapshot()[k] == db0[id := g.Value()][k]
      {
        if k != id { assert passes[k].id == k; }
      }
      assert Snapshot().Keys == db0.Keys;
    }
  }
}

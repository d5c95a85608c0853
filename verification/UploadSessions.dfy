/**
 * Completing an upload: read the session, have S3 assemble the object, then create the file row and mark
 * the session in one transaction. Requests for the same session may overlap, fail anywhere, and be retried.
 */
module UploadSessions {
  import opened Common

  type SessionId = nat
  type FileId = nat
  type ShipmentId = nat

  datatype SessionStatus = Initiated | Uploading | Completed | Aborted

  datatype Meta = Meta(name: string, size: int, contentType: string, checksum: string, storageKey: string)

  datatype Session = Session(
    shipment: Option<ShipmentId>, file: Option<FileId>, status: SessionStatus, owner: Option<nat>, meta: Meta)

  datatype File = File(shipment: ShipmentId, meta: Meta)

  datatype Rows = Rows(sessions: map<SessionId, Session>, files: map<FileId, File>)

  datatype Outcome =
    | Ok(file: FileId, shipment: ShipmentId)
    | NoParts | NotFound | OwnerConflict | CompletedWithoutFile | StatusConflict | MissingShipment
    | StorageFailed | StoreFailed

  /** The storage key is unique among files; the id is the primary key. */
  ghost predicate Insertable(files: map<FileId, File>, id: FileId, f: File) {
    id !in files && forall g | g in files :: files[g].meta.storageKey != f.meta.storageKey
  }

  ghost predicate Committable(r: Rows, sid: SessionId, id: FileId, f: File) {
    Insertable(r.files, id, f) && sid in r.sessions && r.sessions[sid].status != Completed
  }

  function Commit(r: Rows, sid: SessionId, id: FileId, f: File): Rows
    requires sid in r.sessions
  {
    Rows(r.sessions[sid := r.sessions[sid].(status := Completed, file := Some(id))], r.files[id := f])
  }

  /** The answer CompleteUploadSession gives before it talks to S3, if any. */
  function Answer(s: Session, owner: Option<nat>): Option<Outcome> {
    if s.owner != owner then Some(OwnerConflict)
    else if s.status == Completed then
      Some(if s.file.None? || s.shipment.None? then CompletedWithoutFile else Ok(s.file.value, s.shipment.value))
    else if s.status != Uploading && s.status != Initiated then Some(StatusConflict)
    else if s.shipment.None? then Some(MissingShipment)
    else None
  }

  ghost function Complete(r: Rows, sid: SessionId, owner: Option<nat>, parts: nat, s3: bool, id: FileId): (Outcome, Rows) {
    if parts == 0 then (NoParts, r)
    else if sid !in r.sessions then (NotFound, r)
    else if Answer(r.sessions[sid], owner).Some? then (Answer(r.sessions[sid], owner).value, r)
    else if !s3 then (StorageFailed, r)
    else
      var f := File(r.sessions[sid].shipment.value, r.sessions[sid].meta);
      if Committable(r, sid, id, f) then (Ok(id, f.shipment), Commit(r, sid, id, f)) else (StoreFailed, r)
  }

  // ----- One request, by the fields of its session -----

  /** The request has parts, and names a session of its own. */
  ghost predicate Owns(r: Rows, sid: SessionId, owner: Option<nat>, parts: nat) {
    parts > 0 && sid in r.sessions && r.sessions[sid].owner == owner
  }

  ghost predicate Open(s: Session) {
    s.status == Uploading || s.status == Initiated
  }

  /** The session was completed before, with its file. */
  ghost predicate Repeats(r: Rows, sid: SessionId, owner: Option<nat>, parts: nat) {
    && Owns(r, sid, owner, parts) && r.sessions[sid].status == Completed
    && r.sessions[sid].file.Some? && r.sessions[sid].shipment.Some?
  }

  /** S3 assembles the object of an open session, and both rows can be written. */
  ghost predicate Stores(r: Rows, sid: SessionId, owner: Option<nat>, parts: nat, s3: bool, id: FileId) {
    && Owns(r, sid, owner, parts) && Open(r.sessions[sid]) && r.sessions[sid].shipment.Some? && s3
    && id !in r.files && forall g | g in r.files :: r.files[g].meta.storageKey != r.sessions[sid].meta.storageKey
  }

  /** The file of the session is new, the session names it, and nothing else changes. */
  ghost predicate StoredAs(r: Rows, t: Rows, sid: SessionId, id: FileId)
    requires sid in r.sessions && r.sessions[sid].shipment.Some?
  {
    var s := r.sessions[sid];
    && t.sessions == r.sessions[sid := Session(s.shipment, Some(id), Completed, s.owner, s.meta)]
    && t.files == r.files[id := File(s.shipment.value, s.meta)]
  }

  /** Each outcome exactly, and what is written. */
  ghost predicate CompletedAs(r: Rows, t: Rows, sid: SessionId, owner: Option<nat>, parts: nat, s3: bool, id: FileId, outcome: Outcome) {
    && (Stores(r, sid, owner, parts, s3, id) ==> StoredAs(r, t, sid, id) && outcome == Ok(id, r.sessions[sid].shipment.value))
    && (!Stores(r, sid, owner, parts, s3, id) ==> t == r)
    && (Repeats(r, sid, owner, parts) ==> outcome == Ok(r.sessions[sid].file.value, r.sessions[sid].shipment.value))
    && (outcome.Ok? <==> Stores(r, sid, owner, parts, s3, id) || Repeats(r, sid, owner, parts))
    && (outcome == NoParts <==> parts == 0)
    && (outcome == NotFound <==> parts > 0 && sid !in r.sessions)
    && (outcome == OwnerConflict <==> parts > 0 && sid in r.sessions && r.sessions[sid].owner != owner)
    && (outcome == CompletedWithoutFile <==>
          && Owns(r, sid, owner, parts) && r.sessions[sid].status == Completed
          && (r.sessions[sid].file.None? || r.sessions[sid].shipment.None?))
    && (outcome == StatusConflict <==> Owns(r, sid, owner, parts) && r.sessions[sid].status == Aborted)
    && (outcome == MissingShipment <==> Owns(r, sid, owner, parts) && Open(r.sessions[sid]) && r.sessions[sid].shipment.None?)
    && (outcome == StorageFailed <==>
          Owns(r, sid, owner, parts) && Open(r.sessions[sid]) && r.sessions[sid].shipment.Some? && !s3)
  }

  lemma CompletesExactly(r: Rows, sid: SessionId, owner: Option<nat>, parts: nat, s3: bool, id: FileId)
    ensures var (outcome, t) := Complete(r, sid, owner, parts, s3, id);
      CompletedAs(r, t, sid, owner, parts, s3, id, outcome)
  {
  }

  class UploadStore {
    var sessions: map<SessionId, Session>
    var files: map<FileId, File>

    ghost function State(): Rows
      reads this
    {
      Rows(sessions, files)
    }

    constructor ()
      ensures State() == Rows(map[], map[])
    {
      sessions, files := map[], map[];
    }

    /** Both statements or neither. */
    method CreateFileAndMarkUploadCompleted(sid: SessionId, id: FileId, f: File) returns (ok: bool)
      modifies this
      ensures ok <==>
        && id !in old(files) && (forall g | g in old(files) :: old(files)[g].meta.storageKey != f.meta.storageKey)
        && sid in old(sessions) && old(sessions)[sid].status != Completed
      ensures ok ==>
        && files == old(files)[id := f]
        && sessions == old(sessions)[sid := old(sessions)[sid].(status := Completed, file := Some(id))]
      ensures ok <==> Committable(old(State()), sid, id, f)
      ensures State() == if ok then Commit(old(State()), sid, id, f) else old(State())
    {
      if id in files { return false; }
      if g :| g in files && files[g].meta.storageKey == f.meta.storageKey { return false; }
      if sid !in sessions || sessions[sid].status == Completed { return false; }
      files := files[id := f];
      sessions := sessions[sid := sessions[sid].(status := Completed, file := Some(id))];
      return true;
    }

    /** One complete request on its own; `s3` says whether S3 assembles the object. */
    method CompleteUploadSession(sid: SessionId, owner: Option<nat>, parts: nat, s3: bool, id: FileId) returns (outcome: Outcome)
      modifies this
      ensures CompletedAs(old(State()), State(), sid, owner, parts, s3, id, outcome)
      ensures outcome == Complete(old(State()), sid, owner, parts, s3, id).0
      ensures State() == Complete(old(State()), sid, owner, parts, s3, id).1
    {
      CompletesExactly(State(), sid, owner, parts, s3, id);
      if parts == 0 { return NoParts; }
      if sid !in sessions { return NotFound; }
      var session := sessions[sid];
      if session.owner != owner { return OwnerConflict; }
      if session.status == Completed {
        if session.file.None? || session.shipment.None? { return CompletedWithoutFile; }
        return Ok(session.file.value, session.shipment.value);
      }
      if session.status != Uploading && session.status != Initiated { return StatusConflict; }
      if session.shipment.None? { return MissingShipment; }
      if !s3 { return StorageFailed; }
      var ok := CreateFileAndMarkUploadCompleted(sid, id, File(session.shipment.value, session.meta));
      return if ok then Ok(id, session.shipment.value) else StoreFailed;
    }
  }

  // ----- Overlapping requests -----

  datatype Request =
    | Loaded(sid: SessionId, session: Session)      // read; S3 not yet asked
    | Assembled(sid: SessionId, session: Session)   // S3 has assembled the object
    | Answered(sid: SessionId, outcome: Outcome)

  datatype System = System(rows: Rows, reqs: map<nat, Request>)

  datatype Action =
    | CreateSession(sid: SessionId, session: Session)
    | Abandon(sid: SessionId)
    | Load(r: nat, sid: SessionId, owner: Option<nat>)
    | Assemble(r: nat, s3: bool)
    | Store(r: nat, id: FileId)
    | Crash(r: nat)

  ghost predicate Enabled(s: System, a: Action) {
    match a
    case CreateSession(sid, session) => sid !in s.rows.sessions && session.file.None? && session.status == Uploading
    case Abandon(sid) =>
      sid in s.rows.sessions && s.rows.sessions[sid].status != Completed
    case Load(r, sid, _) => r !in s.reqs && sid in s.rows.sessions
    case Assemble(r, _) => r in s.reqs && s.reqs[r].Loaded?
    case Store(r, _) => r in s.reqs && s.reqs[r].Assembled? && s.reqs[r].session.shipment.Some?
    case Crash(r) => r in s.reqs && !s.reqs[r].Answered?
  }

  ghost function Apply(s: System, a: Action): System
    requires Enabled(s, a)
  {
    match a
    case CreateSession(sid, session) => s.(rows := s.rows.(sessions := s.rows.sessions[sid := session]))
    case Abandon(sid) =>
      s.(rows := s.rows.(sessions := s.rows.sessions[sid := s.rows.sessions[sid].(status := Aborted)]))
    case Load(r, sid, owner) =>
      var session := s.rows.sessions[sid];
      s.(reqs := s.reqs[r := if Answer(session, owner).Some? then Answered(sid, Answer(session, owner).value) else Loaded(sid, session)])
    case Assemble(r, s3) =>
      var q := s.reqs[r];
      s.(reqs := s.reqs[r := if s3 then Assembled(q.sid, q.session) else Answered(q.sid, StorageFailed)])
    case Store(r, id) =>
      var q := s.reqs[r];
      var f := File(q.session.shipment.value, q.session.meta);
      if Committable(s.rows, q.sid, id, f)
      then System(Commit(s.rows, q.sid, id, f), s.reqs[r := Answered(q.sid, Ok(id, f.shipment))])
      else s.(reqs := s.reqs[r := Answered(q.sid, StoreFailed)])
    case Crash(r) => s.(reqs := s.reqs - {r})
  }

  ghost function Exec(s: System, acts: seq<Action>): Option<System>
    decreases |acts|
  {
    if acts == [] then Some(s)
    else if Enabled(s, acts[0]) then Exec(Apply(s, acts[0]), acts[1..])
    else None
  }

  // ----- The invariant -----

  /** A completed session names its own file; a session that is not completed names none. */
  ghost predicate SessionInv(r: Rows, sid: SessionId)
    requires sid in r.sessions
  {
    var x := r.sessions[sid];
    && (x.status == Completed <==> x.file.Some?)
    && (x.file.Some? ==> x.shipment.Some? && x.file.value in r.files && r.files[x.file.value] == File(x.shipment.value, x.meta))
  }

  /** The sessions that the join of GetFilesByIDs finds for a file. */
  ghost function Joined(r: Rows, id: FileId): set<SessionId> {
    set sid | sid in r.sessions && r.sessions[sid].file == Some(id)
  }

  ghost predicate RowsInv(r: Rows) {
    && (forall sid | sid in r.sessions :: SessionInv(r, sid))
    && (forall id | id in r.files :: |Joined(r, id)| == 1)
  }

  ghost predicate SameUpload(x: Session, y: Session) {
    x.shipment == y.shipment && x.meta == y.meta && x.owner == y.owner
  }

  ghost predicate RequestInv(r: Rows, q: Request) {
    && q.sid in r.sessions
    && (q.Loaded? || q.Assembled? ==> SameUpload(q.session, r.sessions[q.sid]) && q.session.shipment.Some?)
    && (q.Answered? ==> q.outcome != CompletedWithoutFile)
    && (q.Answered? && q.outcome.Ok? ==>
         r.sessions[q.sid].file == Some(q.outcome.file) && r.sessions[q.sid].shipment == Some(q.outcome.shipment))
  }

  ghost predicate Inv(s: System) {
    RowsInv(s.rows) && forall r | r in s.reqs :: RequestInv(s.rows, s.reqs[r])
  }

  lemma CommitKeepsRows(r: Rows, sid: SessionId, id: FileId, f: File)
    requires RowsInv(r) && Committable(r, sid, id, f)
    requires r.sessions[sid].shipment == Some(f.shipment) && r.sessions[sid].meta == f.meta
    ensures RowsInv(Commit(r, sid, id, f))
  {
    var t := Commit(r, sid, id, f);
    forall x | x in t.sessions ensures SessionInv(t, x) { assert SessionInv(r, x); }
    forall g | g in t.files ensures |Joined(t, g)| == 1 {
      assert SessionInv(r, sid);
      if g == id {
        forall x | x in Joined(t, g) ensures x == sid { assert SessionInv(r, x); }
        assert Joined(t, g) == {sid};
      } else {
        assert Joined(t, g) == Joined(r, g);
      }
    }
  }

  lemma OtherRowsKeep(r: Rows, sid: SessionId, x: Session)
    requires RowsInv(r) && x.file.None? && x.status != Completed
    requires sid in r.sessions ==> r.sessions[sid].file.None?
    ensures RowsInv(r.(sessions := r.sessions[sid := x]))
  {
    var t := r.(sessions := r.sessions[sid := x]);
    forall y | y in t.sessions ensures SessionInv(t, y) { assert y in r.sessions ==> SessionInv(r, y); }
    forall g | g in t.files ensures |Joined(t, g)| == 1 { assert Joined(t, g) == Joined(r, g); }
  }

  lemma StepKeepsRows(s: System, a: Action)
    requires Inv(s) && Enabled(s, a)
    ensures RowsInv(Apply(s, a).rows)
  {
    match a {
      case CreateSession(sid, session) => OtherRowsKeep(s.rows, sid, session);
      case Abandon(sid) =>
        assert SessionInv(s.rows, sid);
        OtherRowsKeep(s.rows, sid, s.rows.sessions[sid].(status := Aborted));
      case Store(r, id) =>
        var q := s.reqs[r];
        assert RequestInv(s.rows, q);
        var f := File(q.session.shipment.value, q.session.meta);
        if Committable(s.rows, q.sid, id, f) { CommitKeepsRows(s.rows, q.sid, id, f); }
      case _ =>
    }
  }

  /** A session keeps what it was created with, and once completed it never changes at all. */
  ghost predicate SessionsMoveOn(r: Rows, t: Rows) {
    && r.sessions.Keys <= t.sessions.Keys && r.files.Keys <= t.files.Keys
    && (forall id | id in r.files :: t.files[id] == r.files[id])
    && (forall sid | sid in r.sessions :: SameUpload(r.sessions[sid], t.sessions[sid]))
    && (forall sid | sid in r.sessions && r.sessions[sid].status == Completed :: t.sessions[sid] == r.sessions[sid])
  }

  lemma StepMovesOn(s: System, a: Action)
    requires Inv(s) && Enabled(s, a)
    ensures SessionsMoveOn(s.rows, Apply(s, a).rows)
  {
  }

  lemma RequestStays(r: Rows, t: Rows, q: Request)
    requires RowsInv(r) && SessionsMoveOn(r, t) && RequestInv(r, q)
    ensures RequestInv(t, q)
  {
    assert SessionInv(r, q.sid);
  }

  lemma StepKeepsRequests(s: System, a: Action)
    requires Inv(s) && Enabled(s, a)
    ensures forall r | r in Apply(s, a).reqs :: RequestInv(Apply(s, a).rows, Apply(s, a).reqs[r])
  {
    var t := Apply(s, a);
    StepMovesOn(s, a);
    forall r | r in t.reqs ensures RequestInv(t.rows, t.reqs[r]) {
      if r in s.reqs {
        assert RequestInv(s.rows, s.reqs[r]);
        RequestStays(s.rows, t.rows, s.reqs[r]);
      } else {
        assert SessionInv(s.rows, a.sid);
      }
    }
  }

  lemma StepKeepsInv(s: System, a: Action)
    requires Inv(s) && Enabled(s, a)
    ensures Inv(Apply(s, a))
  {
    StepKeepsRows(s, a);
    StepKeepsRequests(s, a);
  }

  lemma {:induction false} RunKeepsInv(s: System, acts: seq<Action>)
    requires Inv(s) && Exec(s, acts).Some?
    ensures Inv(Exec(s, acts).value)
    decreases |acts|
  {
    if acts == [] {
    } else {
      StepKeepsInv(s, acts[0]);
      RunKeepsInv(Apply(s, acts[0]), acts[1..]);
    }
  }

  // ----- Main results -----

  ghost predicate Fresh(s: System) {
    s == System(Rows(map[], map[]), map[])
  }

  /**
   * In every interleaving a session is completed exactly when it names its file, every file is named by
   * exactly one session, and there are as many files as completed sessions.
   */
  lemma OneFilePerSession(s: System, acts: seq<Action>)
    requires Fresh(s) && Exec(s, acts).Some?
    ensures var r := Exec(s, acts).value.rows;
      && (forall sid | sid in r.sessions :: SessionInv(r, sid))
      && (forall id | id in r.files :: |Joined(r, id)| == 1)
      && |r.files| == |CompletedIn(r)|
  {
    RunKeepsInv(s, acts);
    SessionsCountFiles(Exec(s, acts).value.rows);
  }

  ghost function CompletedIn(r: Rows): set<SessionId> {
    set sid | sid in r.sessions && r.sessions[sid].status == Completed
  }

  ghost function NamedBy(r: Rows, ids: set<FileId>): set<SessionId> {
    set sid | sid in r.sessions && r.sessions[sid].file.Some? && r.sessions[sid].file.value in ids
  }

  lemma {:induction false} NamedByCard(r: Rows, ids: set<FileId>)
    requires RowsInv(r) && ids <= r.files.Keys
    ensures |NamedBy(r, ids)| == |ids|
    decreases |ids|
  {
    if ids == {} {
      assert NamedBy(r, ids) == {};
    } else {
      var id :| id in ids;
      NamedByCard(r, ids - {id});
      assert NamedBy(r, ids) == NamedBy(r, ids - {id}) + Joined(r, id);
      DisjointCard(NamedBy(r, ids - {id}), Joined(r, id));
      assert ids == (ids - {id}) + {id};
    }
  }

  lemma SessionsCountFiles(r: Rows)
    requires RowsInv(r)
    ensures |r.files| == |CompletedIn(r)|
  {
    NamedByCard(r, r.files.Keys);
    forall sid | sid in r.sessions ensures sid in CompletedIn(r) <==> sid in NamedBy(r, r.files.Keys) {
      assert SessionInv(r, sid);
    }
    assert CompletedIn(r) == NamedBy(r, r.files.Keys);
  }

  /** Any two requests that were told "completed" for one session were told the same ids. */
  lemma ReplaysAgree(s: System, acts: seq<Action>, r: nat, q: nat)
    requires Fresh(s) && Exec(s, acts).Some?
    requires var t := Exec(s, acts).value;
      && r in t.reqs && q in t.reqs && t.reqs[r].Answered? && t.reqs[q].Answered?
      && t.reqs[r].sid == t.reqs[q].sid && t.reqs[r].outcome.Ok? && t.reqs[q].outcome.Ok?
    ensures Exec(s, acts).value.reqs[r].outcome == Exec(s, acts).value.reqs[q].outcome
  {
    RunKeepsInv(s, acts);
    var t := Exec(s, acts).value;
    assert RequestInv(t.rows, t.reqs[r]) && RequestInv(t.rows, t.reqs[q]);
  }

  lemma {:induction false} RunMovesOn(s: System, acts: seq<Action>)
    requires Inv(s) && Exec(s, acts).Some?
    ensures SessionsMoveOn(s.rows, Exec(s, acts).value.rows)
    decreases |acts|
  {
    if acts == [] {
    } else {
      StepKeepsInv(s, acts[0]);
      StepMovesOn(s, acts[0]);
      RunMovesOn(Apply(s, acts[0]), acts[1..]);
    }
  }

  /** After a success, however late, the owner's request is answered with the same ids and changes nothing. */
  lemma RetryIsAnswered(s: System, acts: seq<Action>, r: nat, owner: Option<nat>, parts: nat, s3: bool, id: FileId)
    requires Inv(s) && r in s.reqs && s.reqs[r].Answered? && s.reqs[r].outcome.Ok?
    requires Exec(s, acts).Some? && owner == s.rows.sessions[s.reqs[r].sid].owner && parts > 0
    ensures var t := Exec(s, acts).value;
      Complete(t.rows, s.reqs[r].sid, owner, parts, s3, id) == (s.reqs[r].outcome, t.rows)
  {
    var sid := s.reqs[r].sid;
    assert RequestInv(s.rows, s.reqs[r]) && SessionInv(s.rows, sid);
    RunMovesOn(s, acts);
  }

  /** The steps of one request with nothing in between are the request on its own. */
  lemma StepsAreOneRequest(s: System, r: nat, sid: SessionId, owner: Option<nat>, s3: bool, id: FileId)
    requires Inv(s) && r !in s.reqs && sid in s.rows.sessions
    ensures var (outcome, rows) := Complete(s.rows, sid, owner, 1, s3, id);
      var s1 := Apply(s, Load(r, sid, owner));
      var s2 := if s1.reqs[r].Loaded? then Apply(s1, Assemble(r, s3)) else s1;
      && (s2.reqs[r].Assembled? ==> Enabled(s2, Store(r, id)))
      && var s3' := if s2.reqs[r].Assembled? then Apply(s2, Store(r, id)) else s2;
      s3'.rows == rows && s3'.reqs[r] == Answered(sid, outcome)
  {
  }
}

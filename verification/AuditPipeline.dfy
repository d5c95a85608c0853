/**
 * From Prepare to the log: the outbox carries signed events as rows, and every one of them still verifies
 * when it is read from the log, in every run of the delivery protocol.
 */
module AuditPipeline {
  import opened Common
  import Outbox
  import OutboxProtocol
  import Integrity = AuditIntegrity

  type Content = Integrity.Signed
  type System = OutboxProtocol.System<Content>
  type Action = OutboxProtocol.Action<Content>

  /** The service's configuration and the functions it uses. */
  datatype Service = Service(config: Integrity.Config, texts: Integrity.Texts, mac: Integrity.Mac)

  /** A row that verifies, stands under its own id and reads back unchanged in time. */
  ghost predicate Genuine(v: Service, id: nat, row: Content) {
    && row.event.id == id && row.event.details.Object? && row.event.occurredAt % 1000 == 0
    && Integrity.VerifyIntegrity(v.config, v.texts, v.mac, row)
  }

  /** `row` is what the outbox row of some prepared event reads back as. */
  ghost predicate IsPrepared(v: Service, id: nat, row: Content) {
    exists i: Integrity.Input, now: int :: PreparedFrom(v, id, row, i, now)
  }

  ghost predicate PreparedFrom(v: Service, id: nat, row: Content, i: Integrity.Input, now: int) {
    var s := Integrity.Prepare(v.config, v.texts, v.mac, i, id, now);
    s.Some? && Integrity.ReadsBackAs(s.value, row)
  }

  lemma PreparedIsGenuine(v: Service, id: nat, row: Content)
    requires IsPrepared(v, id, row)
    ensures Genuine(v, id, row)
  {
    var i, now :| PreparedFrom(v, id, row, i, now);
    var s := Integrity.Prepare(v.config, v.texts, v.mac, i, id, now).value;
    Integrity.PreparedVerifies(v.config, v.texts, v.mac, i, id, now);
    Integrity.StorageKeepsVerdict(v.config, v.texts, v.mac, s, row);
  }

  /** Every event that enters the run, in a transaction or directly, comes from Prepare. */
  ghost predicate AllPrepared(v: Service, acts: seq<Action>) {
    && (forall k | 0 <= k < |acts| && acts[k].Begin? :: IsPrepared(v, acts[k].id, acts[k].content))
    && (forall k | 0 <= k < |acts| && acts[k].RecordDirectly? :: IsPrepared(v, acts[k].id, acts[k].content))
  }

  /** A genuine row, read back with its details in any order, verifies under its id. */
  lemma GenuineReadsBack(v: Service, id: nat, row: Content, r: Content)
    requires Genuine(v, id, row) && Integrity.ReadsBackAs(row, r)
    ensures Genuine(v, id, r)
  {
    Integrity.StorageKeepsVerdict(v.config, v.texts, v.mac, row, r);
  }

  ghost predicate EverythingGenuine(v: Service, s: System) {
    && (forall e, r | e in s.log && Integrity.ReadsBackAs(e.content, r) :: Genuine(v, e.id, r))
    && (forall id | id in s.enqueued ::
         OutboxProtocol.Logged(s.log, id, s.enqueued[id]) || (id in s.outbox && Genuine(v, id, s.outbox[id].content)))
  }

  lemma HoldsEverywhere(v: Service, s: System, p: (nat, Content) -> bool)
    requires OutboxProtocol.AllHold(s, p) && OutboxProtocol.Safe(s)
    requires forall id, row :: p(id, row) ==> Genuine(v, id, row)
    ensures EverythingGenuine(v, s)
  {
    forall e, r | e in s.log && Integrity.ReadsBackAs(e.content, r) ensures Genuine(v, e.id, r) {
      assert p(e.id, e.content);
      GenuineReadsBack(v, e.id, e.content, r);
    }
    forall id | id in s.enqueued
      ensures OutboxProtocol.Logged(s.log, id, s.enqueued[id]) || (id in s.outbox && Genuine(v, id, s.outbox[id].content))
    {
      assert OutboxProtocol.Accounted(s, id);
      if id in s.outbox { assert p(id, s.outbox[id].content); }
    }
  }

  /**
   * End to end, over every run with any number of workers, crashes, replays and purges: each row of the
   * log, read back with its details in any order, verifies and stands under the id it was signed with;
   * and what a committed transaction enqueued is there, or waiting and verifies as well.
   */
  lemma LoggedEventsVerify(v: Service, acts: seq<Action>)
    requires AllPrepared(v, acts) && OutboxProtocol.Exec(OutboxProtocol.Initial(), acts).Some?
    ensures EverythingGenuine(v, OutboxProtocol.Exec(OutboxProtocol.Initial(), acts).value)
  {
    var s: System := OutboxProtocol.Initial();
    var p := (id: nat, row: Content) => IsPrepared(v, id, row);
    forall k | 0 <= k < |acts| ensures OutboxProtocol.Admits(acts[k], p) { AdmitsPrepared(v, acts, k); }
    OutboxProtocol.RunAllHold(s, acts, p);
    OutboxProtocol.NoEventIsLost(acts);
    forall id, row | p(id, row) ensures Genuine(v, id, row) {
      PreparedIsGenuine(v, id, row);
    }
    HoldsEverywhere(v, OutboxProtocol.Exec(s, acts).value, p);
  }

  lemma AdmitsPrepared(v: Service, acts: seq<Action>, k: nat)
    requires AllPrepared(v, acts) && k < |acts|
    ensures acts[k].Begin? || acts[k].RecordDirectly? ==> IsPrepared(v, acts[k].id, acts[k].content)
  {
  }
}

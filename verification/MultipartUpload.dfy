/**
 * The browser's multipart upload: worker loops over a shared cursor and a shared map of completed
 * parts, with retries and resumption. Each step is what one worker does between two awaits, so a
 * schedule is any sequence of steps. The object store keeps the bytes of every PUT that reached it.
 */
module MultipartUpload {
  import opened Common
  import opened PartSizing

  type Bytes = seq<int>
  type PartNo = n: int | n >= 1 witness 1

  datatype Part = Part(number: PartNo, etag: string)

  /** The arguments of one call; `done` are the parts completed in an earlier attempt. */
  datatype Job = Job(file: Bytes, partSize: nat, numbers: seq<PartNo>, done: map<PartNo, string>, maxAttempts: int)

  datatype Worker =
    | Idle
    | Sending(part: PartNo, attempt: int)
    | Finished
    | Threw(part: PartNo)

  datatype Pool = Pool(
    cursor: nat,
    completed: map<PartNo, string>,
    workers: seq<Worker>,
    stored: map<PartNo, Bytes>,
    puts: seq<PartNo>)           // the part of every PUT sent, in order

  datatype Action =
    | Claim(w: nat)
    | PutSucceeded(w: nat, etag: string)
    | PutFailed(w: nat, landed: bool)   // a failed PUT may still have reached the store
    | CallbackThrew(w: nat, etag: string)   // recorded as completed, and then a progress callback threw
    | Leave(w: nat)

  /** Blob.slice clamps both ends to the size of the file. */
  function Slice(job: Job, part: PartNo): Bytes {
    var start := Min((part - 1) * job.partSize, |job.file|);
    var end := Min(start + job.partSize, |job.file|);
    job.file[start..end]
  }

  /** The parts that are still to be sent, in their order. */
  function PendingOf(numbers: seq<PartNo>, done: map<PartNo, string>): (r: seq<PartNo>)
    ensures forall p | p in r :: p in numbers && p !in done
    ensures forall p | p in numbers && p !in done :: p in r
    ensures Distinct(numbers) ==> Distinct(r)
  {
    if numbers == [] then []
    else
      var rest := PendingOf(numbers[1..], done);
      if numbers[0] in done then rest else [numbers[0]] + rest
  }

  predicate Distinct(s: seq<PartNo>) {
    forall i, j | 0 <= i < j < |s| :: s[i] != s[j]
  }

  function Pending(job: Job): seq<PartNo> {
    PendingOf(job.numbers, job.done)
  }

  predicate Enabled(job: Job, s: Pool, a: Action) {
    && a.w < |s.workers|
    && match a
       case Claim(w) => s.workers[w].Idle? && s.cursor < |Pending(job)|
       case PutSucceeded(w, _) => s.workers[w].Sending?
       case PutFailed(w, _) => s.workers[w].Sending?
       case CallbackThrew(w, _) => s.workers[w].Sending?
       case Leave(w) => s.workers[w].Idle? && s.cursor >= |Pending(job)|
  }

  /** The catch of the retry loop: another attempt while one is left, and then the error is thrown. */
  function Again(job: Job, s: Pool, w: nat): Pool
    requires w < |s.workers| && s.workers[w].Sending?
  {
    var Sending(part, attempt) := s.workers[w];
    if attempt < job.maxAttempts
    then s.(workers := s.workers[w := Sending(part, attempt + 1)], puts := s.puts + [part])
    else s.(workers := s.workers[w := Threw(part)])
  }

  function Apply(job: Job, s: Pool, a: Action): Pool
    requires Enabled(job, s, a)
  {
    match a
    case Claim(w) =>
      var part := Pending(job)[s.cursor];
      if job.maxAttempts >= 1
      then s.(cursor := s.cursor + 1, workers := s.workers[w := Sending(part, 1)], puts := s.puts + [part])
      else s.(cursor := s.cursor + 1)
    case PutSucceeded(w, etag) =>
      var part := s.workers[w].part;
      s.(completed := s.completed[part := etag], workers := s.workers[w := Idle], stored := s.stored[part := Slice(job, part)])
    case PutFailed(w, landed) =>
      var part := s.workers[w].part;
      Again(job, s.(stored := if landed then s.stored[part := Slice(job, part)] else s.stored), w)
    case CallbackThrew(w, etag) =>
      var part := s.workers[w].part;
      Again(job, s.(completed := s.completed[part := etag], stored := s.stored[part := Slice(job, part)]), w)
    case Leave(w) => s.(workers := s.workers[w := Finished])
  }

  /** As many workers as asked for, but no more than there are parts to send, and at least one. */
  function WorkerCount(concurrency: int, pending: nat): (n: nat)
    ensures n >= 1
  {
    Max(1, Min(concurrency, if pending == 0 then 1 else pending))
  }

  function Start(job: Job, concurrency: int, stored: map<PartNo, Bytes>): Pool {
    Pool(0, job.done, seq(WorkerCount(concurrency, |Pending(job)|), _ => Idle), stored, [])
  }

  function Exec(job: Job, s: Pool, acts: seq<Action>): Option<Pool>
    decreases |acts|
  {
    if acts == [] then Some(s)
    else if Enabled(job, s, acts[0]) then Exec(job, Apply(job, s, acts[0]), acts[1..])
    else None
  }

  /** The uploader's shared variables, and what each worker does to them between two awaits. */
  class Uploader {
    const job: Job
    var cursor: nat
    var completed: map<PartNo, string>
    var workers: seq<Worker>
    ghost var stored: map<PartNo, Bytes>
    ghost var puts: seq<PartNo>

    ghost function State(): Pool
      reads this
    {
      Pool(cursor, completed, workers, stored, puts)
    }

    /** The part is sent once more while an attempt is left; after the last one the worker throws. */
    ghost predicate TriedAgain(sending: Worker, was: seq<Worker>, workers: seq<Worker>, sent: seq<PartNo>, puts: seq<PartNo>, w: nat)
      requires sending.Sending? && w < |was|
    {
      && (sending.attempt < job.maxAttempts ==>
            workers == was[w := Sending(sending.part, sending.attempt + 1)] && puts == sent + [sending.part])
      && (sending.attempt >= job.maxAttempts ==> workers == was[w := Threw(sending.part)] && puts == sent)
    }

    constructor (job: Job, concurrency: int, ghost stored: map<PartNo, Bytes>)
      ensures this.job == job && State() == Start(job, concurrency, stored)
      ensures cursor == 0 && completed == job.done && puts == [] && forall w | 0 <= w < |workers| :: workers[w] == Idle
      ensures |workers| == if concurrency <= 1 || |Pending(job)| <= 1 then 1 else Min(concurrency, |Pending(job)|)
    {
      this.job, cursor, completed := job, 0, job.done;
      workers := seq(WorkerCount(concurrency, |Pending(job)|), _ => Idle);
      this.stored, puts := stored, [];
    }

    /** The top of the loop: take the part under the cursor, or leave. */
    method Next(w: nat) returns (sent: Option<PartNo>)
      requires w < |workers| && workers[w].Idle?
      modifies this
      ensures old(cursor) < |Pending(job)| ==> cursor == old(cursor) + 1
      ensures old(cursor) >= |Pending(job)| ==> cursor == old(cursor) && workers == old(workers)[w := Finished]
      ensures sent.Some? ==> old(cursor) < |Pending(job)| && sent.value == Pending(job)[old(cursor)]
                             && workers == old(workers)[w := Sending(sent.value, 1)] && puts == old(puts) + [sent.value]
      ensures sent.None? ==> puts == old(puts) && (old(cursor) < |Pending(job)| ==> workers == old(workers))
      ensures completed == old(completed) && stored == old(stored)
      ensures State() == Apply(job, old(State()), if old(cursor) < |Pending(job)| then Claim(w) else Leave(w))
      ensures sent.Some? <==> old(cursor) < |Pending(job)| && job.maxAttempts >= 1
    {
      var pending := Pending(job);
      if cursor >= |pending| {
        workers := workers[w := Finished];
        return None;
      }
      var part := pending[cursor];
      cursor := cursor + 1;
      if 1 <= job.maxAttempts {
        workers := workers[w := Sending(part, 1)];
        puts := puts + [part];
        return Some(part);
      }
      return None;
    }

    /** The PUT resolved with an entity tag. */
    method Resolved(w: nat, etag: string)
      requires w < |workers| && workers[w].Sending?
      modifies this
      ensures completed == old(completed)[old(workers)[w].part := etag] && workers == old(workers)[w := Idle]
      ensures stored == old(stored)[old(workers)[w].part := Slice(job, old(workers)[w].part)]
      ensures cursor == old(cursor) && puts == old(puts)
      ensures State() == Apply(job, old(State()), PutSucceeded(w, etag))
    {
      var part := workers[w].part;
      completed := completed[part := etag];
      workers := workers[w := Idle];
      stored := stored[part := Slice(job, part)];
    }

    /** The PUT was rejected: try again, or throw after the last attempt. */
    method Rejected(w: nat, ghost landed: bool)
      requires w < |workers| && workers[w].Sending?
      modifies this
      ensures TriedAgain(old(workers)[w], old(workers), workers, old(puts), puts, w)
      ensures completed == old(completed) && cursor == old(cursor)
      ensures stored == if landed then old(stored)[old(workers)[w].part := Slice(job, old(workers)[w].part)] else old(stored)
      ensures State() == Apply(job, old(State()), PutFailed(w, landed))
    {
      var part := workers[w].part;
      if landed { stored := stored[part := Slice(job, part)]; }
      Caught(w);
    }

    /** The PUT resolved and was recorded, and the callback that reports it threw into the same catch. */
    method ResolvedThenThrew(w: nat, etag: string)
      requires w < |workers| && workers[w].Sending?
      modifies this
      ensures TriedAgain(old(workers)[w], old(workers), workers, old(puts), puts, w)
      ensures completed == old(completed)[old(workers)[w].part := etag] && cursor == old(cursor)
      ensures stored == old(stored)[old(workers)[w].part := Slice(job, old(workers)[w].part)]
      ensures State() == Apply(job, old(State()), CallbackThrew(w, etag))
    {
      var part := workers[w].part;
      completed := completed[part := etag];
      stored := stored[part := Slice(job, part)];
      Caught(w);
    }

    method Caught(w: nat)
      requires w < |workers| && workers[w].Sending?
      modifies this
      ensures TriedAgain(old(workers)[w], old(workers), workers, old(puts), puts, w)
      ensures State() == Again(job, old(State()), w)
    {
      var part, attempt := workers[w].part, workers[w].attempt;
      if attempt < job.maxAttempts {
        workers := workers[w := Sending(part, attempt + 1)];
        puts := puts + [part];
      } else {
        workers := workers[w := Threw(part)];
      }
    }
  }

  // ----- The invariant -----

  function Held(w: Worker): Option<PartNo> {
    if w.Sending? || w.Threw? then Some(w.part) else None
  }

  predicate Holds(w: Worker, p: PartNo) {
    Held(w) == Some(p)
  }

  function Claimed(job: Job, s: Pool): seq<PartNo> {
    Pending(job)[..Min(s.cursor, |Pending(job)|)]
  }

  /** What the workers hold are distinct claimed parts. */
  ghost predicate WorkersInv(job: Job, s: Pool) {
    && s.cursor <= |Pending(job)|
    && (forall w | 0 <= w < |s.workers| && Held(s.workers[w]).Some? :: Held(s.workers[w]).value in Claimed(job, s))
    && (forall v, w | 0 <= v < w < |s.workers| && Held(s.workers[v]).Some? :: Held(s.workers[v]) != Held(s.workers[w]))
    && (forall w | 0 <= w < |s.workers| && s.workers[w].Finished? :: s.cursor == |Pending(job)|)
  }

  /** Completed are the parts done before and claimed parts; a claimed part is completed or held. */
  ghost predicate PartsInv(job: Job, s: Pool) {
    && (forall p | p in s.completed :: p in job.done || p in Claimed(job, s))
    && (forall p | p in job.done :: p in s.completed)
    && (job.maxAttempts >= 1 ==> forall p | p in Claimed(job, s) ::
          p in s.completed || exists w :: 0 <= w < |s.workers| && Holds(s.workers[w], p))
    && (job.maxAttempts < 1 ==> s.completed == job.done && forall w | 0 <= w < |s.workers| :: s.workers[w] in {Idle, Finished})
  }

  /** The store has the right bytes of every completed part. */
  ghost predicate BytesInv(job: Job, completed: map<PartNo, string>, stored: map<PartNo, Bytes>) {
    forall p | p in completed :: p in stored && stored[p] == Slice(job, p)
  }

  /** A part is sent once per attempt, and not at all unless it was pending and claimed. */
  ghost predicate PutsInv(job: Job, s: Pool) {
    && (forall p: PartNo | p in s.puts :: p in Claimed(job, s) && multiset(s.puts)[p] <= job.maxAttempts)
    && (forall w | 0 <= w < |s.workers| && s.workers[w].Sending? ::
          multiset(s.puts)[s.workers[w].part] == s.workers[w].attempt <= job.maxAttempts)
    && (forall w | 0 <= w < |s.workers| && s.workers[w].Threw? :: multiset(s.puts)[s.workers[w].part] == job.maxAttempts)
  }

  ghost predicate Inv(job: Job, s: Pool) {
    WorkersInv(job, s) && PartsInv(job, s) && BytesInv(job, s.completed, s.stored) && PutsInv(job, s)
  }

  lemma ClaimFacts(job: Job, s: Pool, w: nat)
    requires Distinct(job.numbers) && WorkersInv(job, s) && PartsInv(job, s) && PutsInv(job, s) && Enabled(job, s, Claim(w))
    ensures var p := Pending(job)[s.cursor];
      && Claimed(job, Apply(job, s, Claim(w))) == Claimed(job, s) + [p]
      && p !in Claimed(job, s) && p !in s.completed && p !in s.puts
  {
    var pending := Pending(job);
    assert pending[..s.cursor + 1] == pending[..s.cursor] + [pending[s.cursor]];
    assert pending[s.cursor] in pending;
  }

  lemma ClaimKeepsParts(job: Job, s: Pool, w: nat)
    requires Distinct(job.numbers) && WorkersInv(job, s) && PartsInv(job, s) && PutsInv(job, s) && Enabled(job, s, Claim(w))
    ensures PartsInv(job, Apply(job, s, Claim(w)))
  {
    ClaimFacts(job, s, w);
    var t := Apply(job, s, Claim(w));
    if job.maxAttempts >= 1 {
      forall p | p in Claimed(job, t) && p !in t.completed
        ensures exists v :: 0 <= v < |t.workers| && Holds(t.workers[v], p)
      {
        if p in Claimed(job, s) {
          var v :| 0 <= v < |s.workers| && Holds(s.workers[v], p);
          assert Holds(t.workers[v], p);
        } else {
          assert Holds(t.workers[w], p);
        }
      }
    }
  }

  lemma ClaimKeepsWorkers(job: Job, s: Pool, w: nat)
    requires Distinct(job.numbers) && WorkersInv(job, s) && PartsInv(job, s) && PutsInv(job, s) && Enabled(job, s, Claim(w))
    ensures WorkersInv(job, Apply(job, s, Claim(w)))
  {
    ClaimFacts(job, s, w);
  }

  lemma ClaimKeepsPuts(job: Job, s: Pool, w: nat)
    requires Distinct(job.numbers) && WorkersInv(job, s) && PartsInv(job, s) && PutsInv(job, s) && Enabled(job, s, Claim(w))
    ensures PutsInv(job, Apply(job, s, Claim(w)))
  {
    ClaimFacts(job, s, w);
    var p := Pending(job)[s.cursor];
    assert multiset(s.puts + [p]) == multiset(s.puts) + multiset{p};
    assert multiset(s.puts)[p] == 0;
  }

  /** A worker holds on to its part unless that part is completed by this step. */
  lemma HeldOrCompleted(job: Job, s: Pool, a: Action, v: nat, p: PartNo)
    requires Enabled(job, s, a) && !a.Claim? && v < |s.workers| && Holds(s.workers[v], p)
    ensures p in Apply(job, s, a).completed || Holds(Apply(job, s, a).workers[v], p)
  {
    if v != a.w { assert Apply(job, s, a).workers[v] == s.workers[v]; }
  }

  lemma PutKeepsParts(job: Job, s: Pool, a: Action)
    requires WorkersInv(job, s) && PartsInv(job, s) && Enabled(job, s, a) && !a.Claim?
    ensures PartsInv(job, Apply(job, s, a))
  {
    var t := Apply(job, s, a);
    assert Claimed(job, t) == Claimed(job, s);
    if job.maxAttempts >= 1 {
      forall p | p in Claimed(job, t) && p !in t.completed
        ensures exists v :: 0 <= v < |t.workers| && Holds(t.workers[v], p)
      {
        var v :| 0 <= v < |s.workers| && Holds(s.workers[v], p);
        HeldOrCompleted(job, s, a, v, p);
        assert Holds(t.workers[v], p);
      }
    }
  }

  lemma PutKeepsWorkers(job: Job, s: Pool, a: Action)
    requires WorkersInv(job, s) && Enabled(job, s, a) && !a.Claim?
    ensures WorkersInv(job, Apply(job, s, a))
  {
    var t := Apply(job, s, a);
    assert Claimed(job, t) == Claimed(job, s);
    forall w | 0 <= w < |t.workers| && w != a.w ensures t.workers[w] == s.workers[w] { }
    assert Held(t.workers[a.w]).Some? ==> Held(t.workers[a.w]) == Held(s.workers[a.w]);
  }

  lemma OneMorePut(puts: seq<PartNo>, p: PartNo, q: PartNo)
    ensures multiset(puts + [p])[q] == multiset(puts)[q] + (if q == p then 1 else 0)
  {
    assert multiset(puts + [p]) == multiset(puts) + multiset{p};
  }

  lemma RetryKeepsCounts(job: Job, s: Pool, w: nat, v: nat)
    requires WorkersInv(job, s) && PutsInv(job, s) && w < |s.workers| && s.workers[w].Sending?
    requires s.workers[w].attempt < job.maxAttempts && v < |s.workers| && Held(Again(job, s, w).workers[v]).Some?
    ensures var t := Again(job, s, w);
      && (t.workers[v].Sending? ==> multiset(t.puts)[t.workers[v].part] == t.workers[v].attempt <= job.maxAttempts)
      && (t.workers[v].Threw? ==> multiset(t.puts)[t.workers[v].part] == job.maxAttempts)
  {
    var t := Again(job, s, w);
    OneMorePut(s.puts, s.workers[w].part, t.workers[v].part);
    if v != w { assert t.workers[v] == s.workers[v] && Held(s.workers[v]) != Held(s.workers[w]); }
  }

  lemma RetryKeepsPuts(job: Job, s: Pool, w: nat)
    requires WorkersInv(job, s) && PutsInv(job, s) && w < |s.workers| && s.workers[w].Sending?
    requires s.workers[w].attempt < job.maxAttempts
    ensures PutsInv(job, Again(job, s, w))
  {
    var t := Again(job, s, w);
    assert Claimed(job, t) == Claimed(job, s) && Held(s.workers[w]).value in Claimed(job, s);
    forall q: PartNo | q in t.puts ensures q in Claimed(job, t) && multiset(t.puts)[q] <= job.maxAttempts {
      OneMorePut(s.puts, s.workers[w].part, q);
    }
    forall v | 0 <= v < |t.workers| && Held(t.workers[v]).Some?
      ensures t.workers[v].Sending? ==> multiset(t.puts)[t.workers[v].part] == t.workers[v].attempt <= job.maxAttempts
      ensures t.workers[v].Threw? ==> multiset(t.puts)[t.workers[v].part] == job.maxAttempts
    {
      RetryKeepsCounts(job, s, w, v);
    }
  }

  lemma CaughtKeepsPuts(job: Job, s: Pool, a: Action)
    requires WorkersInv(job, s) && PutsInv(job, s) && Enabled(job, s, a)
    requires (a.PutFailed? || a.CallbackThrew?) && s.workers[a.w].attempt < job.maxAttempts
    ensures PutsInv(job, Apply(job, s, a))
  {
    var t := Apply(job, s, a);
    var caught := s.(completed := t.completed, stored := t.stored);
    assert Claimed(job, caught) == Claimed(job, s) && Again(job, caught, a.w) == t;
    RetryKeepsPuts(job, caught, a.w);
  }

  lemma PutKeepsPuts(job: Job, s: Pool, a: Action)
    requires WorkersInv(job, s) && PutsInv(job, s) && Enabled(job, s, a) && !a.Claim?
    ensures PutsInv(job, Apply(job, s, a))
  {
    var t := Apply(job, s, a);
    if (a.PutFailed? || a.CallbackThrew?) && s.workers[a.w].attempt < job.maxAttempts {
      CaughtKeepsPuts(job, s, a);
    } else {
      assert t.puts == s.puts && Claimed(job, t) == Claimed(job, s);
      forall w | 0 <= w < |t.workers| && t.workers[w].Sending? ensures t.workers[w] == s.workers[w] { }
      forall w | 0 <= w < |t.workers| && t.workers[w].Threw?
        ensures t.workers[w] == s.workers[w]
             || (w == a.w && s.workers[w].Sending? && t.workers[w].part == s.workers[w].part && s.workers[w].attempt >= job.maxAttempts)
      { }
    }
  }

  lemma StepKeepsBytes(job: Job, s: Pool, a: Action)
    requires BytesInv(job, s.completed, s.stored) && Enabled(job, s, a)
    ensures BytesInv(job, Apply(job, s, a).completed, Apply(job, s, a).stored)
  {
  }

  lemma StepKeepsInv(job: Job, s: Pool, a: Action)
    requires Distinct(job.numbers) && Inv(job, s) && Enabled(job, s, a)
    ensures Inv(job, Apply(job, s, a))
  {
    hide WorkersInv, PartsInv, PutsInv, BytesInv, Apply;
    StepKeepsBytes(job, s, a);
    if a.Claim? {
      ClaimKeepsParts(job, s, a.w);
      ClaimKeepsWorkers(job, s, a.w);
      ClaimKeepsPuts(job, s, a.w);
    } else {
      PutKeepsParts(job, s, a);
      PutKeepsWorkers(job, s, a);
      PutKeepsPuts(job, s, a);
    }
  }

  lemma {:induction false} RunKeepsInv(job: Job, s: Pool, acts: seq<Action>)
    requires Distinct(job.numbers) && Inv(job, s) && Exec(job, s, acts).Some?
    ensures Inv(job, Exec(job, s, acts).value) && |Exec(job, s, acts).value.workers| == |s.workers|
    decreases |acts|
  {
    if acts == [] {
    } else {
      StepKeepsInv(job, s, acts[0]);
      RunKeepsInv(job, Apply(job, s, acts[0]), acts[1..]);
    }
  }

  // ----- Main results of the worker pool -----

  /** A schedule of a fresh call; the parts done before have the right bytes in the store. */
  ghost predicate Reaches(job: Job, concurrency: int, stored: map<PartNo, Bytes>, acts: seq<Action>, s: Pool) {
    && Distinct(job.numbers) && BytesInv(job, job.done, stored)
    && Exec(job, Start(job, concurrency, stored), acts) == Some(s)
  }

  lemma ReachableInv(job: Job, concurrency: int, stored: map<PartNo, Bytes>, acts: seq<Action>, s: Pool)
    requires Reaches(job, concurrency, stored, acts, s)
    ensures Inv(job, s) && |s.workers| >= 1
  {
    var s0 := Start(job, concurrency, stored);
    assert Claimed(job, s0) == [];
    RunKeepsInv(job, s0, acts);
  }

  /** A callback threw after its part was recorded, with another attempt left. */
  predicate Rethrows(job: Job, s: Pool, a: Action)
    requires Enabled(job, s, a)
  {
    a.CallbackThrew? && s.workers[a.w].attempt < job.maxAttempts
  }

  predicate SomeCallbackThrows(job: Job, s: Pool, acts: seq<Action>)
    decreases |acts|
  {
    && acts != [] && Enabled(job, s, acts[0])
    && (Rethrows(job, s, acts[0]) || SomeCallbackThrows(job, Apply(job, s, acts[0]), acts[1..]))
  }

  /** The step sends a part that is recorded as completed. */
  predicate SendsCompleted(job: Job, s: Pool, a: Action)
    requires Enabled(job, s, a)
  {
    var t := Apply(job, s, a);
    |t.puts| > |s.puts| && t.puts[|s.puts|] in t.completed
  }

  predicate SendsAgain(job: Job, s: Pool, acts: seq<Action>)
    decreases |acts|
  {
    && acts != [] && Enabled(job, s, acts[0])
    && (SendsCompleted(job, s, acts[0]) || SendsAgain(job, Apply(job, s, acts[0]), acts[1..]))
  }

  /** Nobody is sending a completed part. */
  ghost predicate NoneAgain(s: Pool) {
    forall w | 0 <= w < |s.workers| && s.workers[w].Sending? :: s.workers[w].part !in s.completed
  }

  lemma ClaimKeepsNoneAgain(job: Job, s: Pool, w: nat)
    requires Distinct(job.numbers) && Inv(job, s) && NoneAgain(s) && Enabled(job, s, Claim(w))
    ensures NoneAgain(Apply(job, s, Claim(w))) && !SendsCompleted(job, s, Claim(w))
  {
    ClaimFacts(job, s, w);
  }

  lemma PutKeepsNoneAgain(job: Job, s: Pool, a: Action)
    requires WorkersInv(job, s) && NoneAgain(s) && Enabled(job, s, a) && !a.Claim? && !Rethrows(job, s, a)
    ensures NoneAgain(Apply(job, s, a)) && !SendsCompleted(job, s, a)
  {
    var t := Apply(job, s, a);
    forall w | 0 <= w < |t.workers| && t.workers[w].Sending? ensures t.workers[w].part !in t.completed {
      if w != a.w { assert t.workers[w] == s.workers[w] && Held(s.workers[w]) != Held(s.workers[a.w]); }
    }
  }

  lemma {:induction false} NoThrowNoneAgain(job: Job, s: Pool, acts: seq<Action>)
    requires Distinct(job.numbers) && Inv(job, s) && NoneAgain(s) && Exec(job, s, acts).Some? && !SomeCallbackThrows(job, s, acts)
    ensures NoneAgain(Exec(job, s, acts).value) && !SendsAgain(job, s, acts)
    decreases |acts|
  {
    if acts == [] {
    } else {
      StepKeepsInv(job, s, acts[0]);
      if acts[0].Claim? { ClaimKeepsNoneAgain(job, s, acts[0].w); } else { PutKeepsNoneAgain(job, s, acts[0]); }
      NoThrowNoneAgain(job, Apply(job, s, acts[0]), acts[1..]);
    }
  }

  lemma {:induction false} ThrowSendsAgain(job: Job, s: Pool, acts: seq<Action>)
    requires SomeCallbackThrows(job, s, acts)
    ensures SendsAgain(job, s, acts)
    decreases |acts|
  {
    if Rethrows(job, s, acts[0]) {
      assert SendsCompleted(job, s, acts[0]);
    } else {
      ThrowSendsAgain(job, Apply(job, s, acts[0]), acts[1..]);
    }
  }

  /**
   * A part that is recorded as completed is sent again in a schedule if and only if a callback throws
   * somewhere in it while an attempt is left.
   */
  lemma SentAgainExactlyWhenThrown(job: Job, concurrency: int, stored: map<PartNo, Bytes>, acts: seq<Action>, s: Pool)
    requires Reaches(job, concurrency, stored, acts, s)
    ensures var s0 := Start(job, concurrency, stored); SendsAgain(job, s0, acts) <==> SomeCallbackThrows(job, s0, acts)
    ensures !SomeCallbackThrows(job, Start(job, concurrency, stored), acts) ==> NoneAgain(s)
  {
    var s0 := Start(job, concurrency, stored);
    assert Claimed(job, s0) == [];
    if SomeCallbackThrows(job, s0, acts) {
      ThrowSendsAgain(job, s0, acts);
    } else {
      NoThrowNoneAgain(job, s0, acts);
    }
  }

  /**
   * In every schedule no two workers hold the same part, a part is sent at most once per attempt, and
   * only a part that was not done before is ever sent; a completed part is not sent again, unless a
   * callback has thrown.
   */
  lemma NothingIsSentTwice(job: Job, concurrency: int, stored: map<PartNo, Bytes>, acts: seq<Action>, s: Pool, a: Action)
    requires Reaches(job, concurrency, stored, acts, s) && Enabled(job, s, a)
    ensures forall v, w | 0 <= v < w < |s.workers| && Held(s.workers[v]).Some? :: Held(s.workers[v]) != Held(s.workers[w])
    ensures forall p: PartNo | p in s.puts :: p in job.numbers && p !in job.done && multiset(s.puts)[p] <= job.maxAttempts
    ensures var t := Apply(job, s, a);
      t.puts != s.puts ==> exists p: PartNo ::
        && t.puts == s.puts + [p] && (a.Claim? ==> p !in s.puts)
        && (a.Claim? || !SomeCallbackThrows(job, Start(job, concurrency, stored), acts) ==> p !in s.completed)
  {
    ReachableInv(job, concurrency, stored, acts, s);
    SentAgainExactlyWhenThrown(job, concurrency, stored, acts, s);
    forall p: PartNo | p in s.puts ensures p in job.numbers && p !in job.done {
      assert p in Claimed(job, s) && p in Pending(job);
    }
    var t := Apply(job, s, a);
    if a.Claim? && job.maxAttempts >= 1 {
      ClaimFacts(job, s, a.w);
      assert t.puts == s.puts + [Pending(job)[s.cursor]];
    } else if t.puts != s.puts {
      assert Held(s.workers[a.w]) == Some(s.workers[a.w].part);
      assert t.puts == s.puts + [s.workers[a.w].part];
    }
  }

  /** Nobody gives up early: in every schedule a worker that has thrown has sent its part once per attempt. */
  lemma ThrowsAfterTheLastAttempt(job: Job, concurrency: int, stored: map<PartNo, Bytes>, acts: seq<Action>, s: Pool, w: nat)
    requires Reaches(job, concurrency, stored, acts, s) && w < |s.workers| && s.workers[w].Threw?
    ensures multiset(s.puts)[s.workers[w].part] == job.maxAttempts >= 1
  {
    ReachableInv(job, concurrency, stored, acts, s);
  }

  ghost predicate AllFinished(s: Pool) {
    forall w | 0 <= w < |s.workers| :: s.workers[w].Finished?
  }

  /**
   * When every worker has finished, the completed parts are the ones done before and all the others,
   * each with the right bytes in the store; unless no attempt was allowed at all, when nothing is new.
   */
  lemma FinishedMeansComplete(job: Job, concurrency: int, stored: map<PartNo, Bytes>, acts: seq<Action>, s: Pool)
    requires Reaches(job, concurrency, stored, acts, s) && AllFinished(s)
    ensures BytesInv(job, s.completed, s.stored)
    ensures job.maxAttempts >= 1 ==> s.completed.Keys == job.done.Keys + set p | p in job.numbers
    ensures job.maxAttempts < 1 ==> s.completed == job.done
  {
    ReachableInv(job, concurrency, stored, acts, s);
    assert s.workers[0].Finished?;
    assert Claimed(job, s) == Pending(job);
  }

  // ----- The result, sorted and reassembled -----

  function NumberSet(parts: seq<Part>): set<PartNo> {
    set p | p in parts :: p.number
  }

  ghost predicate DistinctNumbers(parts: seq<Part>) {
    forall i, j | 0 <= i < j < |parts| :: parts[i].number != parts[j].number
  }

  /** A list of the completed parts, in whatever order the map iterates. */
  ghost predicate Lists(m: map<PartNo, string>, parts: seq<Part>) {
    DistinctNumbers(parts) && NumberSet(parts) == m.Keys && forall p | p in parts :: m[p.number] == p.etag
  }

  function Insert(p: Part, sorted: seq<Part>): seq<Part> {
    if sorted == [] || p.number < sorted[0].number then [p] + sorted
    else [sorted[0]] + Insert(p, sorted[1..])
  }

  /** Sorting by part number; the server sorts a copy again the same way. */
  function Sort(parts: seq<Part>): seq<Part> {
    if parts == [] then [] else Insert(parts[0], Sort(parts[1..]))
  }

  ghost predicate Ascending(parts: seq<Part>) {
    forall i, j | 0 <= i < j < |parts| :: parts[i].number < parts[j].number
  }

  lemma {:induction false} InsertKeeps(p: Part, sorted: seq<Part>)
    ensures multiset(Insert(p, sorted)) == multiset(sorted) + multiset{p}
  {
    if sorted == [] || p.number < sorted[0].number {
    } else {
      InsertKeeps(p, sorted[1..]);
      assert sorted == [sorted[0]] + sorted[1..];
    }
  }

  lemma {:induction false} SortKeeps(parts: seq<Part>)
    ensures multiset(Sort(parts)) == multiset(parts)
  {
    if parts == [] {
    } else {
      SortKeeps(parts[1..]);
      InsertKeeps(parts[0], Sort(parts[1..]));
      assert parts == [parts[0]] + parts[1..];
    }
  }

  lemma {:induction false} InsertElements(p: Part, sorted: seq<Part>)
    ensures forall q | q in Insert(p, sorted) :: q == p || q in sorted
  {
    if sorted == [] || p.number < sorted[0].number {
    } else {
      InsertElements(p, sorted[1..]);
    }
  }

  lemma {:induction false} InsertSorts(p: Part, sorted: seq<Part>)
    requires Ascending(sorted) && forall q | q in sorted :: q.number != p.number
    ensures Ascending(Insert(p, sorted))
  {
    if sorted == [] || p.number < sorted[0].number {
    } else {
      InsertSorts(p, sorted[1..]);
      InsertElements(p, sorted[1..]);
      var rest := Insert(p, sorted[1..]);
      forall i | 0 <= i < |rest| ensures sorted[0].number < rest[i].number {
        assert rest[i] == p || rest[i] in sorted[1..];
      }
    }
  }

  lemma {:induction false} SortSorts(parts: seq<Part>)
    requires DistinctNumbers(parts)
    ensures Ascending(Sort(parts))
    ensures |Sort(parts)| == |parts| && NumberSet(Sort(parts)) == NumberSet(parts)
  {
    SortKeeps(parts);
    SameParts(Sort(parts), parts);
    if parts == [] {
    } else {
      SortSorts(parts[1..]);
      SortKeeps(parts[1..]);
      forall p | p in Sort(parts[1..]) ensures p.number != parts[0].number {
        assert p in multiset(parts[1..]);
        var i :| 0 <= i < |parts[1..]| && parts[1..][i] == p;
        assert parts[i + 1] == p;
      }
      InsertSorts(parts[0], Sort(parts[1..]));
    }
  }

  lemma SameParts(a: seq<Part>, b: seq<Part>)
    requires multiset(a) == multiset(b)
    ensures |a| == |b| && NumberSet(a) == NumberSet(b)
  {
    assert |a| == |multiset(a)| && |b| == |multiset(b)|;
    forall p ensures p in a <==> p in b {
      assert p in multiset(a) <==> p in multiset(b);
    }
  }

  function Numbers(parts: seq<Part>): seq<PartNo> {
    seq(|parts|, i requires 0 <= i < |parts| => parts[i].number)
  }

  /** Part numbers 1 to n, as the server presigns them. */
  function Range(n: nat): seq<PartNo> {
    seq(n, i requires 0 <= i < n => i + 1)
  }

  function UpTo(n: nat): (r: set<PartNo>)
    ensures forall k: PartNo :: k in r <==> k <= n
  {
    if n == 0 then {} else UpTo(n - 1) + {n}
  }

  lemma RangeFacts(n: nat)
    ensures Distinct(Range(n)) && (set k | k in Range(n)) == UpTo(n)
  {
    forall k: PartNo | k <= n ensures k in Range(n) { assert Range(n)[k - 1] == k; }
  }

  lemma LastIsMax(parts: seq<Part>)
    requires Ascending(parts) && parts != []
    ensures var last := |parts| - 1;
      && parts[last].number in NumberSet(parts)
      && (forall k | k in NumberSet(parts) :: k <= parts[last].number)
      && NumberSet(parts[..last]) == NumberSet(parts) - {parts[last].number}
      && Ascending(parts[..last])
  {
    var last := |parts| - 1;
    forall k | k in NumberSet(parts) ensures k <= parts[last].number {
      var i :| 0 <= i < |parts| && parts[i].number == k;
    }
    assert parts == parts[..last] + [parts[last]];
    forall i | 0 <= i < last ensures parts[i].number < parts[last].number { }
  }

  /** An ascending list of exactly the numbers 1 to n is 1, 2, ..., n. */
  lemma {:induction false} AscendingRange(parts: seq<Part>, n: nat)
    requires Ascending(parts) && NumberSet(parts) == UpTo(n)
    ensures Numbers(parts) == Range(n)
  {
    if parts == [] {
      assert n == 0 || n in UpTo(n);
    } else {
      var last := |parts| - 1;
      LastIsMax(parts);
      assert n >= 1 && n in UpTo(n);
      assert parts[last].number == n;
      assert NumberSet(parts[..last]) == UpTo(n - 1);
      AscendingRange(parts[..last], n - 1);
      assert Numbers(parts) == Numbers(parts[..last]) + [n];
      assert Range(n) == Range(n - 1) + [n];
    }
  }

  /** What the object store assembles from the parts it is told to join. */
  function Assemble(stored: map<PartNo, Bytes>, numbers: seq<PartNo>): Bytes
    requires forall p | p in numbers :: p in stored
  {
    if numbers == [] then [] else Assemble(stored, numbers[..|numbers| - 1]) + stored[numbers[|numbers| - 1]]
  }

  lemma {:induction false} AssemblePrefix(job: Job, stored: map<PartNo, Bytes>, n: nat)
    requires forall p: PartNo | p <= n :: p in stored && stored[p] == Slice(job, p)
    ensures (forall p | p in Range(n) :: p in stored)
    ensures Assemble(stored, Range(n)) == job.file[..Min(n * job.partSize, |job.file|)]
  {
    if n == 0 {
    } else {
      assert Range(n)[..n - 1] == Range(n - 1);
      AssemblePrefix(job, stored, n - 1);
      NextSlice(job, n);
    }
  }

  lemma NextSlice(job: Job, n: PartNo)
    ensures job.file[..Min((n - 1) * job.partSize, |job.file|)] + Slice(job, n) == job.file[..Min(n * job.partSize, |job.file|)]
  {
    assert n * job.partSize == (n - 1) * job.partSize + job.partSize;
    assert 0 <= (n - 1) * job.partSize;
  }

  /** partByteLength: what the progress report counts for a part. */
  function PartByteLength(job: Job, part: PartNo): int {
    Max(0, Min(job.partSize, |job.file| - (part - 1) * job.partSize))
  }

  function TotalLength(job: Job, numbers: seq<PartNo>): int {
    if numbers == [] then 0
    else TotalLength(job, numbers[..|numbers| - 1]) + PartByteLength(job, numbers[|numbers| - 1])
  }

  lemma OnePartLonger(start: nat, length: nat, size: nat)
    ensures Min(start, size) + Max(0, Min(length, size - start)) == Min(start + length, size)
    ensures Min(Min(start, size) + length, size) - Min(start, size) == Max(0, Min(length, size - start))
  {
  }

  lemma NaturalProduct(x: nat, y: nat)
    ensures x * y >= 0
  {
  }

  /** What is counted for a part is what its slice holds. */
  lemma PartLengthIsTheSlice(job: Job, part: PartNo)
    ensures PartByteLength(job, part) == |Slice(job, part)|
  {
    NaturalProduct(part - 1, job.partSize);
    OnePartLonger((part - 1) * job.partSize, job.partSize, |job.file|);
  }

  /** The lengths of the first n parts add up to their share of the file, and so all parts to the file. */
  lemma {:induction false} LengthsAddUp(job: Job, n: nat)
    ensures TotalLength(job, Range(n)) == Min(n * job.partSize, |job.file|)
  {
    if n == 0 {
    } else {
      LengthsAddUp(job, n - 1);
      var r, start := Range(n), (n - 1) * job.partSize;
      assert r[..n - 1] == Range(n - 1) && r[n - 1] == n && |r| == n;
      assert n * job.partSize == start + job.partSize && start >= 0;
      OnePartLonger(start, job.partSize, |job.file|);
    }
  }

  /** The part numbers of one upload, and parts that cover the file, as PartSizing guarantees them. */
  ghost predicate ServerParts(job: Job, n: nat) {
    job.numbers == Range(n) && |job.file| <= n * job.partSize
  }

  /**
   * If every worker of a call finishes, then for any iteration order of the map the returned list is
   * strictly ascending; it is exactly the parts 1 to n if and only if no part done before lies outside
   * the upload; and then the object joined from the list is the file, byte for byte. The parts 1 to n
   * are stored as the file in any case.
   */
  lemma UploadedObjectIsTheFile(job: Job, concurrency: int, stored: map<PartNo, Bytes>, acts: seq<Action>, s: Pool,
                                n: nat, parts: seq<Part>)
    requires Reaches(job, concurrency, stored, acts, s) && AllFinished(s)
    requires ServerParts(job, n) && job.maxAttempts >= 1 && Lists(s.completed, parts)
    ensures Ascending(Sort(parts)) && |Sort(parts)| == |parts|
    ensures Numbers(Sort(parts)) == Range(n) <==> job.done.Keys <= UpTo(n)
    ensures (forall p | p in Range(n) :: p in s.stored) && Assemble(s.stored, Range(n)) == job.file
    ensures job.done.Keys <= UpTo(n) ==>
      (forall p | p in Numbers(Sort(parts)) :: p in s.stored) && Assemble(s.stored, Numbers(Sort(parts))) == job.file
  {
    FinishedKeys(job, concurrency, stored, acts, s, n);
    SortedListing(s.completed, parts, n);
    FileIsStored(job, s.completed, s.stored, n);
  }

  lemma FinishedKeys(job: Job, concurrency: int, stored: map<PartNo, Bytes>, acts: seq<Action>, s: Pool, n: nat)
    requires Reaches(job, concurrency, stored, acts, s) && AllFinished(s) && ServerParts(job, n) && job.maxAttempts >= 1
    ensures BytesInv(job, s.completed, s.stored) && UpTo(n) <= s.completed.Keys
    ensures s.completed.Keys == UpTo(n) <==> job.done.Keys <= UpTo(n)
  {
    FinishedMeansComplete(job, concurrency, stored, acts, s);
    RangeFacts(n);
    assert s.completed.Keys == job.done.Keys + UpTo(n);
  }

  lemma FileIsStored(job: Job, completed: map<PartNo, string>, stored: map<PartNo, Bytes>, n: nat)
    requires BytesInv(job, completed, stored) && UpTo(n) <= completed.Keys && |job.file| <= n * job.partSize
    ensures (forall p | p in Range(n) :: p in stored) && Assemble(stored, Range(n)) == job.file
  {
    AssemblePrefix(job, stored, n);
    assert job.file[..|job.file|] == job.file;
  }

  /** The sorted result of any listing of a map is 1 to n exactly when those are the map's keys. */
  lemma SortedListing(m: map<PartNo, string>, parts: seq<Part>, n: nat)
    requires Lists(m, parts)
    ensures Ascending(Sort(parts)) && |Sort(parts)| == |parts|
    ensures Numbers(Sort(parts)) == Range(n) <==> m.Keys == UpTo(n)
  {
    SortSorts(parts);
    RangeFacts(n);
    if m.Keys == UpTo(n) {
      AscendingRange(Sort(parts), n);
    }
    if Numbers(Sort(parts)) == Range(n) {
      NumbersAreTheSet(Sort(parts), Range(n));
    }
  }

  lemma NumbersAreTheSet(parts: seq<Part>, numbers: seq<PartNo>)
    requires Numbers(parts) == numbers
    ensures NumberSet(parts) == set k | k in numbers
  {
    forall k | k in numbers ensures k in NumberSet(parts) {
      var i :| 0 <= i < |numbers| && numbers[i] == k;
      assert parts[i].number == k;
    }
    forall p | p in parts ensures p.number in numbers {
      var i :| 0 <= i < |parts| && parts[i] == p;
      assert numbers[i] == p.number;
    }
  }

  /** The server sorts what it is sent: any order of the parts 1 to n is joined in the same order. */
  lemma ServerSortsAgain(sent: seq<Part>, n: nat)
    requires DistinctNumbers(sent) && NumberSet(sent) == UpTo(n)
    ensures Numbers(Sort(sent)) == Range(n)
  {
    SortSorts(sent);
    AscendingRange(Sort(sent), n);
  }

  /** The loop that presigns one URL per part. */
  method BatchPresignUploadParts(partCount: nat) returns (numbers: seq<PartNo>)
    ensures numbers == Range(partCount)
  {
    numbers := [];
    for i := 1 to partCount + 1
      invariant numbers == Range(i - 1)
    {
      numbers := numbers + [i];
    }
  }

  /**
   * From the file size to the stored object: with the part size the server chooses and the parts it
   * presigns, a first call in which every worker finishes leaves exactly the file in the store.
   */
  lemma EndToEnd(file: Bytes, base: int, maxParts: int, concurrency: int, maxAttempts: int, acts: seq<Action>, s: Pool, parts: seq<Part>)
    requires file != [] && NoOverflow(|file|, maxParts) && 0 < base <= MAX_INT32 && maxAttempts >= 1
    requires PartSizeForFile(|file|, base, maxParts).Some?
    requires var ps := PartSizeForFile(|file|, base, maxParts).value;
      && ps > 0
      && CeilDiv(|file|, ps) >= 0
      && Reaches(Job(file, ps, Range(CeilDiv(|file|, ps)), map[], maxAttempts), concurrency, map[], acts, s)
    requires AllFinished(s) && Lists(s.completed, parts)
    ensures (forall p | p in Numbers(Sort(parts)) :: p in s.stored) && Assemble(s.stored, Numbers(Sort(parts))) == file
    ensures |parts| <= maxParts
  {
    PartsCoverTheFile(|file|, base, maxParts);
    var ps := PartSizeForFile(|file|, base, maxParts).value;
    var n := CeilDiv(|file|, ps);
    var job := Job(file, ps, Range(n), map[], maxAttempts);
    UploadedObjectIsTheFile(job, concurrency, map[], acts, s, n, parts);
    assert Numbers(Sort(parts)) == Range(n);
    assert |parts| == |Numbers(Sort(parts))| == n;
  }
}

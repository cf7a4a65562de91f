/**
 Inserting a batch of headers: parallel workers validate, then one thread writes. The workers share
 a task queue, a slice of errors and a failure counter; a shutdown request can arrive at any moment
 and is sticky. A run is any sequence of the atomic steps below, by any number of workers.
 */
module HeaderImport {
  import opened Options
  import opened ChainTypes
  import opened Consensus
  import opened HeaderRuns

  /** What a call works on: the batch, the headers marked for a proof-of-work check, the blacklisted
      hashes, and the chain as it was when the call began. */
  datatype Batch = Batch(chain: seq<Header>, verify: seq<bool>, bad: set<Hash>, start: Chain)

  datatype Failure = BadHash | Invalid(verdict: Verdict)

  /** Where a worker is: about to take a task; holding one, before the interrupt test, before the
      failure test, or validating; holding one it has reported as bad, before counting the failure;
      or returned. */
  datatype Worker = Fetching | Taken(i: nat) | Uninterrupted(i: nat) | Checking(i: nat) | Erred(i: nat) | Done

  /** The call refuses a batch that is not a chain; otherwise it verifies, and then reports or writes. */
  datatype Phase =
    | Refused
    | Verifying
    | Reported(index: nat, failure: Failure)
    | Writing(i: nat)
    | WriteFailed(i: nat)
    | Finished

  datatype Import = Import(
    next: nat,
    errs: seq<Option<Failure>>,
    failed: nat,
    interrupted: bool,
    workers: seq<Worker>,
    phase: Phase,
    store: Chain)

  predicate Contiguous(chain: seq<Header>) {
    forall i :: 0 < i < |chain| ==>
      chain[i].number == chain[i - 1].number + 1 && chain[i].parentHash == Digest(chain[i - 1])
  }

  predicate BatchOk(b: Batch) {
    |b.chain| > 0 && |b.verify| == |b.chain|
  }

  /** The sanity check at the start of the call. */
  method CheckContiguous(chain: seq<Header>) returns (ok: bool)
    ensures ok <==> Contiguous(chain)
  {
    var i := 1;
    while i < |chain|
      invariant 1 <= i
      invariant forall j :: 0 < j < i && j < |chain| ==>
        chain[j].number == chain[j - 1].number + 1 && chain[j].parentHash == Digest(chain[j - 1])
    {
      if chain[i].number != chain[i - 1].number + 1 || chain[i].parentHash != Digest(chain[i - 1]) {
        return false;
      }
      i := i + 1;
    }
    ok := true;
  }

  function Init(b: Batch, workers: nat): Import {
    Import(0, seq(|b.chain|, _ => None), 0, false, seq(workers, _ => Fetching),
           if Contiguous(b.chain) then Verifying else Refused, b.start)
  }

  /** The validator's answer for the header at index `i`: against the stored parent for the first
      header of the batch, against its predecessor in the batch for the others. */
  function Validate(b: Batch, env: Env, i: nat): Verdict
    requires i < |b.chain| == |b.verify|
  {
    if i > 0 then ValidateHeader(env, b.chain[i], b.chain[i - 1], b.verify[i], false)
    else if !Known(b.start, b.chain[0].parentHash) then UnknownParent
    else ValidateHeader(env, b.chain[0], b.chain[0].parentHash.header, b.verify[0], false)
  }

  // ----- steps -----

  datatype Step =
    | Interrupt
    | Work(w: nat, env: Env)  // one atomic action of worker `w`; `env` is what its validator would see
    | Collect                 // the main thread, once all workers have returned
    | WriteNext(coin: bool)

  function FirstError(errs: seq<Option<Failure>>, i: nat): (r: Option<nat>)
    requires i <= |errs|
    ensures r.Some? ==> i <= r.value < |errs| && errs[r.value].Some? && forall j :: i <= j < r.value ==> errs[j].None?
    ensures r.None? ==> forall j :: i <= j < |errs| ==> errs[j].None?
    decreases |errs| - i
  {
    if i == |errs| then None else if errs[i].Some? then Some(i) else FirstError(errs, i + 1)
  }

  function WorkerStep(b: Batch, s: Import, w: nat, env: Env): Import
    requires BatchOk(b) && w < |s.workers|
  {
    match s.workers[w]
    case Fetching =>
      if s.next < |b.chain|
      then s.(next := s.next + 1, workers := s.workers[w := Taken(s.next)])
      else s.(workers := s.workers[w := Done])
    case Taken(i) =>
      s.(workers := s.workers[w := if s.interrupted then Done else Uninterrupted(i)])
    case Uninterrupted(i) =>
      s.(workers := s.workers[w := if s.failed > 0 then Done else Checking(i)])
    case Checking(i) =>
      if i >= |b.chain| || i >= |s.errs| then s
      else if Digest(b.chain[i]) in b.bad then
        s.(errs := s.errs[i := Some(BadHash)], workers := s.workers[w := Erred(i)])
      else if b.chain[i] in b.start.stored then
        s.(workers := s.workers[w := Fetching])
      else
        var v := Validate(b, env, i);
        if v == Valid then s.(workers := s.workers[w := Fetching])
        else s.(errs := s.errs[i := Some(Invalid(v))], workers := s.workers[w := Erred(i)])
    case Erred(i) =>
      s.(failed := s.failed + 1, workers := s.workers[w := Done])
    case Done => s
  }

  /** The next action of worker `w` is to call the validator. */
  predicate Validates(b: Batch, s: Import, w: nat) {
    && w < |s.workers| && s.workers[w].Checking? && s.workers[w].i < |b.chain|
    && Digest(b.chain[s.workers[w].i]) !in b.bad && b.chain[s.workers[w].i] !in b.start.stored
  }

  predicate AllDone(s: Import) {
    forall w :: 0 <= w < |s.workers| ==> s.workers[w].Done?
  }

  function WriteStep(b: Batch, s: Import, i: nat, coin: bool): Import {
    if i >= |b.chain| || s.interrupted then s.(phase := Finished)
    else if b.chain[i] in s.store.stored then s.(phase := Writing(i + 1))
    else if !Known(s.store, b.chain[i].parentHash) then s.(phase := WriteFailed(i))
    else s.(store := Write(s.store, b.chain[i], coin), phase := Writing(i + 1))
  }

  /** The state after a step; a step that is not enabled changes nothing. */
  function Next(b: Batch, s: Import, step: Step): Import
    requires BatchOk(b)
  {
    match step
    case Interrupt => s.(interrupted := true)
    case Work(w, env) => if s.phase.Verifying? && w < |s.workers| then WorkerStep(b, s, w, env) else s
    case Collect =>
      if s.phase.Verifying? && AllDone(s) then
        var first := if s.failed > 0 then FirstError(s.errs, 0) else None;
        if first.Some? then s.(phase := Reported(first.value, s.errs[first.value].value))
        else s.(phase := Writing(0))
      else s
    case WriteNext(coin) => if s.phase.Writing? then WriteStep(b, s, s.phase.i, coin) else s
  }

  function Run(b: Batch, workers: nat, steps: seq<Step>): Import
    requires BatchOk(b)
    decreases |steps|
  {
    if steps == [] then Init(b, workers)
    else Next(b, Run(b, workers, steps[..|steps| - 1]), steps[|steps| - 1])
  }

  // ----- the invariant -----

  /** The calls of the validator that were made: the position of the header, and what it saw. */
  type Seen = (nat, Env) -> bool

  /** The header is not blacklisted, and was already known or the validator was called and accepted it. */
  ghost predicate Good(b: Batch, seen: Seen, i: nat)
    requires BatchOk(b) && i < |b.chain|
  {
    && Digest(b.chain[i]) !in b.bad
    && (b.chain[i] in b.start.stored || exists env :: seen(i, env) && Validate(b, env, i) == Valid)
  }

  /** The failure is a real one. */
  ghost predicate Faulty(b: Batch, seen: Seen, i: nat, f: Failure)
    requires BatchOk(b) && i < |b.chain|
  {
    match f
    case BadHash => Digest(b.chain[i]) in b.bad
    case Invalid(v) =>
      v != Valid && b.chain[i] !in b.start.stored && exists env :: seen(i, env) && Validate(b, env, i) == v
  }

  ghost predicate AllGood(b: Batch, seen: Seen)
    requires BatchOk(b)
  {
    forall i :: 0 <= i < |b.chain| ==> Good(b, seen, i)
  }

  predicate AllKnown(b: Batch) {
    forall i :: 0 <= i < |b.chain| ==> b.chain[i] in b.start.stored
  }

  predicate Holding(w: Worker, i: int) {
    (w.Taken? || w.Uninterrupted? || w.Checking? || w.Erred?) && w.i == i
  }

  /** Position `i` is accounted for: its header is good, or a worker has it, or it was given up for a
      reason that keeps anything from being written. */
  ghost predicate Settled(b: Batch, seen: Seen, s: Import, i: nat)
    requires BatchOk(b) && i < |b.chain|
  {
    Good(b, seen, i) || s.interrupted || s.failed > 0 || exists w :: 0 <= w < |s.workers| && Holding(s.workers[w], i)
  }

  ghost predicate WorkersOk(b: Batch, seen: Seen, s: Import)
    requires BatchOk(b)
  {
    && |s.workers| > 0 && |s.errs| == |b.chain| && s.next <= |b.chain|
    && (forall w, i :: 0 <= w < |s.workers| && Holding(s.workers[w], i) ==> i < |b.chain|)
    && (forall w :: 0 <= w < |s.workers| && s.workers[w].Erred? ==>
          s.workers[w].i < |b.chain| && s.errs[s.workers[w].i].Some?)
    && (forall w :: 0 <= w < |s.workers| && s.workers[w].Done? ==> s.next == |b.chain| || s.interrupted || s.failed > 0)
    && (s.failed > 0 ==> exists i :: 0 <= i < |s.errs| && s.errs[i].Some?)
    && (forall i :: 0 <= i < |s.errs| && s.errs[i].Some? ==> Faulty(b, seen, i, s.errs[i].value))
    && (forall i :: 0 <= i < s.next ==> Settled(b, seen, s, i))
  }

  /** A prefix of the batch is stored and what is stored grew from the start by validated writes. */
  ghost predicate StoreOk(b: Batch, seen: Seen, s: Import, i: nat)
    requires BatchOk(b)
  {
    && i <= |b.chain| && Contiguous(b.chain)
    && Inv(s.store) && PositiveDifficulty(s.store)
    && b.start.stored <= s.store.stored <= b.start.stored + (set j | 0 <= j < i :: b.chain[j])
    && (!s.interrupted ==> forall j :: 0 <= j < i ==> b.chain[j] in s.store.stored)
    && (AllGood(b, seen) || (s.interrupted && s.store == b.start))
    && (AllKnown(b) ==> s.store == b.start)
  }

  ghost predicate ImportOk(b: Batch, seen: Seen, s: Import)
    requires BatchOk(b)
  {
    match s.phase
    case Refused => !Contiguous(b.chain) && s.store == b.start
    case Verifying => Contiguous(b.chain) && WorkersOk(b, seen, s) && s.store == b.start
    case Reported(i, f) => i < |b.chain| && Faulty(b, seen, i, f) && s.store == b.start
    case Writing(i) => StoreOk(b, seen, s, i)
    case WriteFailed(_) => false
    case Finished => StoreOk(b, seen, s, |b.chain|)
  }

  lemma InitOk(b: Batch, seen: Seen, workers: nat)
    requires BatchOk(b) && workers > 0
    ensures ImportOk(b, seen, Init(b, workers))
  {
  }

  /** Whatever worker `w` moves to, tasks held by the others stay held, and so does its own unless it
      was settled by the move. */
  lemma SettledAfterMove(b: Batch, seen: Seen, s: Import, s': Import, w: nat)
    requires BatchOk(b) && w < |s.workers| && WorkersOk(b, seen, s)
    requires |s'.workers| == |s.workers| && s'.workers == s.workers[w := s'.workers[w]]
    requires s'.interrupted == s.interrupted && s'.failed >= s.failed && s'.next >= s.next
    requires s'.next <= |b.chain|
    requires forall i :: s.next <= i < s'.next ==> Holding(s'.workers[w], i)
    requires forall i :: 0 <= i < |b.chain| && Holding(s.workers[w], i) ==>
      Good(b, seen, i) || s.interrupted || s'.failed > 0 || Holding(s'.workers[w], i)
    ensures forall i :: 0 <= i < s'.next ==> Settled(b, seen, s', i)
  {
    hide Good;
    forall i | 0 <= i < s'.next
      ensures Settled(b, seen, s', i)
    {
      if i >= s.next {
        assert Holding(s'.workers[w], i);
      } else {
        assert Settled(b, seen, s, i);
        if !(Good(b, seen, i) || s.interrupted || s'.failed > 0) {
          var x :| 0 <= x < |s.workers| && Holding(s.workers[x], i);
          assert Holding(s'.workers[x], i);
        }
      }
    }
  }

  /** A worker that is done with its header has found it good, or has recorded a real failure. */
  lemma Judged(b: Batch, seen: Seen, s: Import, w: nat, env: Env)
    requires BatchOk(b) && w < |s.workers| && s.workers[w].Checking? && s.workers[w].i < |b.chain| == |s.errs|
    requires Validates(b, s, w) ==> seen(s.workers[w].i, env)
    ensures
      var i, s' := s.workers[w].i, WorkerStep(b, s, w, env);
      if s'.workers[w].Fetching? then Good(b, seen, i)
      else s'.errs[i].Some? && Faulty(b, seen, i, s'.errs[i].value)
  {
    hide Validate;
  }

  lemma WorkerStepKeeps(b: Batch, seen: Seen, s: Import, w: nat, env: Env)
    requires BatchOk(b) && w < |s.workers| && WorkersOk(b, seen, s)
    requires Validates(b, s, w) ==> seen(s.workers[w].i, env)
    ensures WorkersOk(b, seen, WorkerStep(b, s, w, env))
  {
    hide Validate, Settled, Good, Faulty, Validates;
    var s' := WorkerStep(b, s, w, env);
    if s.workers[w].Checking? {
      assert Holding(s.workers[w], s.workers[w].i);
      Judged(b, seen, s, w, env);
    }
    assert !s.workers[w].Fetching? && !s.workers[w].Done? ==> Holding(s.workers[w], s.workers[w].i);
    SettledAfterMove(b, seen, s, s', w);
    if s.failed > 0 {
      var i :| 0 <= i < |s.errs| && s.errs[i].Some?;
      assert s'.errs[i].Some?;
    } else if s.workers[w].Erred? {
      assert s'.errs[s.workers[w].i].Some?;
    }
  }

  /** When all workers have returned without interrupt or failure, every header is good. */
  lemma AllDoneAllGood(b: Batch, seen: Seen, s: Import)
    requires BatchOk(b) && WorkersOk(b, seen, s) && AllDone(s) && !s.interrupted && s.failed == 0
    ensures AllGood(b, seen)
  {
    hide Good;
    assert s.workers[0].Done?;
    forall i | 0 <= i < |b.chain|
      ensures Good(b, seen, i)
    {
      assert Settled(b, seen, s, i);
    }
  }

  /** A header of a good batch whose predecessors are stored has a stored parent that accepted it. */
  lemma NextIsValidated(b: Batch, seen: Seen, s: Import, i: nat, coin: bool)
    requires BatchOk(b) && i < |b.chain| && StoreOk(b, seen, s, i) && AllGood(b, seen) && !s.interrupted
    requires b.chain[i] !in s.store.stored
    ensures Known(s.store, b.chain[i].parentHash)
    ensures ValidatedCall(s.store, Call(b.chain[i], coin))
  {
    hide ValidateHeader, Inv, PositiveDifficulty;
    assert Good(b, seen, i);
    var env :| seen(i, env) && Validate(b, env, i) == Valid;
  }

  lemma WriteStepKeeps(b: Batch, seen: Seen, s: Import, i: nat, coin: bool)
    requires BatchOk(b) && s.phase == Writing(i) && StoreOk(b, seen, s, i)
    ensures ImportOk(b, seen, WriteStep(b, s, i, coin))
  {
    hide ValidateHeader, Inv, PositiveDifficulty, AllGood;
    if i < |b.chain| && !s.interrupted && b.chain[i] !in s.store.stored {
      NextIsValidated(b, seen, s, i, coin);
      ValidatedCallKeepsInv(s.store, Call(b.chain[i], coin));
    }
  }

  lemma StepKeeps(b: Batch, seen: Seen, s: Import, step: Step)
    requires BatchOk(b) && ImportOk(b, seen, s) && Inv(b.start) && PositiveDifficulty(b.start)
    requires step.Work? && s.phase.Verifying? && Validates(b, s, step.w) ==> seen(s.workers[step.w].i, step.env)
    ensures ImportOk(b, seen, Next(b, s, step))
  {
    hide WorkerStep, WriteStep, Inv, PositiveDifficulty, AllGood, Faulty;
    match step
    case Interrupt =>
    case Work(w, env) =>
      if s.phase.Verifying? && w < |s.workers| {
        WorkerStepKeeps(b, seen, s, w, env);
        WorkerStepFrame(b, s, w, env);
      }
    case Collect =>
      if s.phase.Verifying? && AllDone(s) && !s.interrupted && s.failed == 0 {
        AllDoneAllGood(b, seen, s);
      }
    case WriteNext(coin) =>
      if s.phase.Writing? {
        WriteStepKeeps(b, seen, s, s.phase.i, coin);
      }
  }

  lemma WorkerStepFrame(b: Batch, s: Import, w: nat, env: Env)
    requires BatchOk(b) && w < |s.workers|
    ensures WorkerStep(b, s, w, env).phase == s.phase && WorkerStep(b, s, w, env).store == s.store
  {
  }

  // ----- over every run -----

  /** Step `t` of the run is a call of the validator for the header at `i`, which saw `env`. */
  ghost predicate CalledAt(b: Batch, workers: nat, steps: seq<Step>, t: nat, i: nat, env: Env)
    requires BatchOk(b)
  {
    && t < |steps| && steps[t].Work? && steps[t].env == env
    && var s := Run(b, workers, steps[..t]);
       s.phase.Verifying? && Validates(b, s, steps[t].w) && s.workers[steps[t].w].i == i
  }

  ghost predicate Called(b: Batch, workers: nat, steps: seq<Step>, i: nat, env: Env)
    requires BatchOk(b)
  {
    exists t :: CalledAt(b, workers, steps, t, i, env)
  }

  ghost function CallsOf(b: Batch, workers: nat, steps: seq<Step>): Seen
    requires BatchOk(b)
  {
    (i: nat, env: Env) => Called(b, workers, steps, i, env)
  }

  lemma {:induction false} RunOk(b: Batch, workers: nat, steps: seq<Step>, n: nat)
    requires BatchOk(b) && workers > 0 && Inv(b.start) && PositiveDifficulty(b.start) && n <= |steps|
    ensures ImportOk(b, CallsOf(b, workers, steps), Run(b, workers, steps[..n]))
    decreases n
  {
    hide ImportOk, Inv, PositiveDifficulty, Next;
    var seen := CallsOf(b, workers, steps);
    if n == 0 {
      InitOk(b, seen, workers);
    } else {
      RunOk(b, workers, steps, n - 1);
      assert steps[..n][..n - 1] == steps[..n - 1];
      var s, step := Run(b, workers, steps[..n - 1]), steps[n - 1];
      if step.Work? && s.phase.Verifying? && Validates(b, s, step.w) {
        assert CalledAt(b, workers, steps, n - 1, s.workers[step.w].i, step.env);
      }
      StepKeeps(b, seen, s, step);
    }
  }

  /** The header at `i` was already known, or a step of the run called the validator for it and it
      was accepted. */
  ghost predicate Passed(b: Batch, workers: nat, steps: seq<Step>, i: nat)
    requires BatchOk(b) && i < |b.chain|
  {
    Good(b, CallsOf(b, workers, steps), i)
  }

  /** In every interleaving, at every moment: nothing is written unless the batch is a chain and every
      header of it was already known or accepted by the validator in this very run, and nothing at all if
      every header was known; the chain invariant holds; no write is refused; a reported failure was found
      by the validator in this run; and a call that finishes undisturbed has stored the whole batch. */
  lemma NothingWrittenUnlessAllGood(b: Batch, workers: nat, steps: seq<Step>)
    requires BatchOk(b) && workers > 0 && Inv(b.start) && PositiveDifficulty(b.start)
    ensures
      var s := Run(b, workers, steps);
      && (s.store != b.start ==> Contiguous(b.chain) && forall i :: 0 <= i < |b.chain| ==> Passed(b, workers, steps, i))
      && (AllKnown(b) ==> s.store == b.start)
      && Inv(s.store)
      && !s.phase.WriteFailed?
      && (s.phase.Reported? ==>
            s.phase.index < |b.chain| && Faulty(b, CallsOf(b, workers, steps), s.phase.index, s.phase.failure))
      && (s.phase.Finished? && !s.interrupted ==> forall i :: 0 <= i < |b.chain| ==> b.chain[i] in s.store.stored)
  {
    hide Inv, PositiveDifficulty, WorkersOk, Run, Faulty, Good, CallsOf;
    RunOk(b, workers, steps, |steps|);
    assert steps[..|steps|] == steps;
  }

  /** And then every header marked for it passed a proof-of-work check of this run, or was known. */
  lemma MarkedHeadersWereChecked(b: Batch, workers: nat, steps: seq<Step>, i: nat)
    requires BatchOk(b) && workers > 0 && Inv(b.start) && PositiveDifficulty(b.start)
    requires Run(b, workers, steps).store != b.start
    requires i < |b.chain| && b.verify[i]
    ensures PowChecked(b, workers, steps, i)
  {
    hide Inv, PositiveDifficulty, Run, CalledAt;
    NothingWrittenUnlessAllGood(b, workers, steps);
    assert Passed(b, workers, steps, i);
    if b.chain[i] !in b.start.stored {
      var env :| CallsOf(b, workers, steps)(i, env) && Validate(b, env, i) == Valid;
      assert Called(b, workers, steps, i, env) && env.powOk(b.chain[i]);
    }
  }

  /** The header is an old one, or a call of the validator in this run checked its proof of work. */
  ghost predicate PowChecked(b: Batch, workers: nat, steps: seq<Step>, i: nat)
    requires BatchOk(b) && i < |b.chain|
  {
    b.chain[i] in b.start.stored || exists env :: Called(b, workers, steps, i, env) && env.powOk(b.chain[i])
  }

  // ----- every call comes to an end -----

  /** How many actions a worker has left before it is done or takes another task. */
  function Rank(w: Worker): nat {
    match w
    case Fetching => 1
    case Taken(_) => 5
    case Uninterrupted(_) => 4
    case Checking(_) => 3
    case Erred(_) => 2
    case Done => 0
  }

  function RankSum(ws: seq<Worker>): nat {
    if ws == [] then 0 else RankSum(ws[..|ws| - 1]) + Rank(ws[|ws| - 1])
  }

  lemma {:induction false} RankSumUpdate(ws: seq<Worker>, w: nat, x: Worker)
    requires w < |ws|
    ensures RankSum(ws[w := x]) == RankSum(ws) - Rank(ws[w]) + Rank(x)
    decreases |ws|
  {
    var init := ws[..|ws| - 1];
    if w == |ws| - 1 {
      assert ws[w := x][..|ws| - 1] == init;
    } else {
      assert ws[w := x][..|ws| - 1] == init[w := x];
      RankSumUpdate(init, w, x);
    }
  }

  /** The work left: zero exactly when the call has returned. */
  function Left(b: Batch, s: Import): nat {
    match s.phase
    case Verifying => |b.chain| + 2 + RankSum(s.workers) + 5 * (if s.next < |b.chain| then |b.chain| - s.next else 0)
    case Writing(i) => 1 + if i < |b.chain| then |b.chain| - i else 0
    case _ => 0
  }

  lemma WorkerWorks(b: Batch, seen: Seen, s: Import, w: nat, env: Env)
    requires BatchOk(b) && WorkersOk(b, seen, s) && w < |s.workers| && s.phase.Verifying?
    ensures
      var s' := WorkerStep(b, s, w, env);
      if s.workers[w].Done? then s' == s else Left(b, s') < Left(b, s)
  {
    hide Validate, Settled, Good, Faulty;
    var s' := WorkerStep(b, s, w, env);
    assert !s.workers[w].Fetching? && !s.workers[w].Done? ==> Holding(s.workers[w], s.workers[w].i);
    WorkerStepFrame(b, s, w, env);
    if !s.workers[w].Done? {
      assert s'.workers == s.workers[w := s'.workers[w]];
      RankSumUpdate(s.workers, w, s'.workers[w]);
    }
  }

  /** A step that does anything, other than to note an interrupt, leaves less to do. */
  lemma StepWorks(b: Batch, seen: Seen, s: Import, step: Step)
    requires BatchOk(b) && ImportOk(b, seen, s)
    ensures
      var s' := Next(b, s, step);
      s' == s.(interrupted := s'.interrupted) || Left(b, s') < Left(b, s)
  {
    hide WorkerStep, WorkersOk, StoreOk, Faulty, RankSum;
    if step.Work? && s.phase.Verifying? && step.w < |s.workers| {
      WorkerWorks(b, seen, s, step.w, step.env);
    }
  }

  /** And as long as something is left, some step does something, whatever the validator would see. */
  lemma NeverStuck(b: Batch, seen: Seen, s: Import, env: Env) returns (step: Step)
    requires BatchOk(b) && ImportOk(b, seen, s) && Left(b, s) > 0
    ensures Left(b, Next(b, s, step)) < Left(b, s)
  {
    hide WorkerStep, StoreOk, Faulty, RankSum, Settled;
    if s.phase.Writing? {
      step := WriteNext(false);
    } else if AllDone(s) {
      step := Collect;
    } else {
      var w :| 0 <= w < |s.workers| && !s.workers[w].Done?;
      step := Work(w, env);
      WorkerWorks(b, seen, s, w, env);
    }
  }

  /** So a call that has returned without an interrupt, on a batch that is a chain and in which the run found
      no fault, has stored the whole batch; and one whose batch is no chain has stored nothing. */
  lemma GoodBatchIsStored(b: Batch, workers: nat, steps: seq<Step>)
    requires BatchOk(b) && workers > 0 && Inv(b.start) && PositiveDifficulty(b.start)
    requires
      var s := Run(b, workers, steps);
      Left(b, s) == 0 && !s.interrupted
    requires forall i, f :: 0 <= i < |b.chain| ==> !Faulty(b, CallsOf(b, workers, steps), i, f)
    ensures
      var s := Run(b, workers, steps);
      if Contiguous(b.chain) then forall i :: 0 <= i < |b.chain| ==> b.chain[i] in s.store.stored
      else s.store == b.start
  {
    hide Inv, PositiveDifficulty, WorkersOk, Run, Faulty, Good, CallsOf, RankSum;
    RunOk(b, workers, steps, |steps|);
    assert steps[..|steps|] == steps;
  }

  // ----- which headers get the proof-of-work check -----

  /** A random position in every full window of `checkFreq` headers, and the last header. */
  method MarkForPow(n: nat, checkFreq: nat) returns (verify: seq<bool>)
    requires n > 0 && checkFreq > 0
    ensures |verify| == n && Marked(verify, checkFreq)
  {
    verify := seq(n, _ => false);
    for i := 0 to n / checkFreq
      invariant |verify| == n
      invariant forall x :: 0 <= x < i ==> WindowMarked(verify, x, checkFreq)
    {
      var r :| 0 <= r < checkFreq;
      var index := i * checkFreq + r;
      WindowInside(n, checkFreq, i, r);
      if index >= n {
        index := n - 1;
      }
      ghost var before := verify;
      verify := verify[index := true];
      assert verify[i * checkFreq + r];
      MarkingKeeps(before, verify, i, checkFreq);
    }
    ghost var before := verify;
    verify := verify[n - 1 := true];
    MarkingKeeps(before, verify, n / checkFreq, checkFreq);
  }

  ghost predicate WindowMarked(verify: seq<bool>, i: int, checkFreq: nat) {
    exists j :: 0 <= j < |verify| && i * checkFreq <= j < i * checkFreq + checkFreq && verify[j]
  }

  /** The last header and one of each full window are marked. */
  ghost predicate Marked(verify: seq<bool>, checkFreq: nat)
    requires verify != [] && checkFreq > 0
  {
    && verify[|verify| - 1]
    && forall i :: 0 <= i < |verify| / checkFreq ==> WindowMarked(verify, i, checkFreq)
  }

  /** Together with the marking: if anything of a batch is written, the last header was already known or
      passed a proof-of-work check of the run, */
  lemma LastWasChecked(b: Batch, workers: nat, steps: seq<Step>, checkFreq: nat)
    requires BatchOk(b) && workers > 0 && Inv(b.start) && PositiveDifficulty(b.start)
    requires checkFreq > 0 && Marked(b.verify, checkFreq) && Run(b, workers, steps).store != b.start
    ensures PowChecked(b, workers, steps, |b.chain| - 1)
  {
    hide Inv, PositiveDifficulty, Run, PowChecked;
    MarkedHeadersWereChecked(b, workers, steps, |b.chain| - 1);
  }

  /** and so was or did one header of each full window. */
  lemma WindowsWereChecked(b: Batch, workers: nat, steps: seq<Step>, checkFreq: nat, x: nat)
    requires BatchOk(b) && workers > 0 && Inv(b.start) && PositiveDifficulty(b.start)
    requires checkFreq > 0 && Marked(b.verify, checkFreq) && x < |b.chain| / checkFreq
    requires Run(b, workers, steps).store != b.start
    ensures exists i ::
      0 <= i < |b.chain| && x * checkFreq <= i < x * checkFreq + checkFreq && PowChecked(b, workers, steps, i)
  {
    hide Inv, PositiveDifficulty, Run, PowChecked;
    assert WindowMarked(b.verify, x, checkFreq);
    var i :| 0 <= i < |b.verify| && x * checkFreq <= i < x * checkFreq + checkFreq && b.verify[i];
    MarkedHeadersWereChecked(b, workers, steps, i);
  }

  lemma WindowInside(n: nat, checkFreq: nat, i: nat, r: nat)
    requires checkFreq > 0 && i < n / checkFreq && r < checkFreq
    ensures i * checkFreq + r < n
  {
    assert i * checkFreq + checkFreq == (i + 1) * checkFreq <= n / checkFreq * checkFreq <= n;
  }

  lemma MarkingKeeps(before: seq<bool>, after: seq<bool>, n: nat, checkFreq: nat)
    requires |before| == |after| && forall j :: 0 <= j < |before| && before[j] ==> after[j]
    requires forall x :: 0 <= x < n ==> WindowMarked(before, x, checkFreq)
    ensures forall x :: 0 <= x < n ==> WindowMarked(after, x, checkFreq)
  {
    forall x | 0 <= x < n
      ensures WindowMarked(after, x, checkFreq)
    {
      assert WindowMarked(before, x, checkFreq);
      var j :| 0 <= j < |before| && x * checkFreq <= j < x * checkFreq + checkFreq && before[j];
      assert after[j];
    }
  }
}

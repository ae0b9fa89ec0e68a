/**
 Per-file, per-module update states with retries (crates/app/cce-orchestrator/src/index_state.rs).

 `update_module_state`, which sets any state unchecked, is not part of the runs below.
 */
module RetryState {
  import opened Text

  datatype ModuleType = Relation | Summary | Embedding | Bm25 | Export

  const ALL_MODULES: seq<ModuleType> := [Relation, Summary, Embedding, Bm25, Export]

  /** Seconds of the wall clock. */
  type Time = int

  datatype ModuleUpdateState = Pending | Updating | Success | Failed | Retrying(nextAttempt: Time) | DeadLetter

  const TOKEN_LIMIT_ERROR_CODE: string := "LLM_TOKEN_LIMIT_EXCEEDED_ERROR"
  const MAX_RETRY_COUNT: nat := 3
  const BASE_RETRY_DELAY_SECS: nat := 5
  const TWO_32: nat := 0x1_0000_0000
  const U64_MAX_SECS: nat := 0xffff_ffff_ffff_ffff

  datatype TrackerFailure = TrackerFailure(message: string, code: Option<string>, retryable: bool)

  datatype ModuleUpdateRecord = ModuleUpdateRecord(
    state: ModuleUpdateState,
    lastAttempt: Option<Time>,
    retryCount: nat,
    errorMessage: Option<string>,
    errorCode: Option<string>,
    truncated: bool)
  {
    /** `is_truncate_candidate`. */
    predicate IsTruncateCandidate() { state.DeadLetter? && !truncated && errorCode == Some(TOKEN_LIMIT_ERROR_CODE) }
  }

  const DEFAULT_RECORD := ModuleUpdateRecord(Pending, None, 0, None, None, false)

  function Pow2(n: nat): nat { if n == 0 then 1 else 2 * Pow2(n - 1) }

  /** `calculate_retry_delay` in seconds; none where `2_u32.pow` overflows. */
  function RetryDelay(retryCount: nat): Option<nat>
  {
    var exponent := if retryCount == 0 then 0 else retryCount - 1;
    if exponent >= 32 then None
    else
      var delay := BASE_RETRY_DELAY_SECS * Pow2(exponent);
      Some(if delay > U64_MAX_SECS then U64_MAX_SECS else delay)
  }

  /** The delays the tracker asks for: five seconds, then ten. */
  lemma DelaysAskedFor(retryCount: nat)
    requires 1 <= retryCount < MAX_RETRY_COUNT
    ensures RetryDelay(retryCount) == Some(if retryCount == 1 then 5 else 10)
  {
    assert Pow2(0) == 1 && Pow2(1) == 2;
  }

  // ---------------------------------------------------------------- marks

  datatype Mark =
    | Succeed(mod: ModuleType, now: Time)
    | Fail(mod: ModuleType, failure: TrackerFailure, now: Time)
    | Truncate(mod: ModuleType)

  /** A record after a failure; the 32-bit count wraps. */
  function AfterFailure(r: ModuleUpdateRecord, f: TrackerFailure, now: Time): ModuleUpdateRecord
  {
    var count := (r.retryCount + 1) % TWO_32;
    var state :=
      if !f.retryable || count >= MAX_RETRY_COUNT then DeadLetter
      else Retrying(now + RetryDelay(count).value);
    ModuleUpdateRecord(state, Some(now), count, Some(f.message), f.code, r.truncated)
  }

  function After(r: ModuleUpdateRecord, m: Mark): ModuleUpdateRecord
  {
    match m
    case Succeed(_, now) => r.(state := Success, lastAttempt := Some(now), errorMessage := None)
    case Fail(_, f, now) => AfterFailure(r, f, now)
    case Truncate(_) => r.(truncated := true)
  }

  type Records = map<ModuleType, ModuleUpdateRecord>

  function AfterAll(rs: Records, m: Mark): Records { if m.mod in rs then rs[m.mod := After(rs[m.mod], m)] else rs }

  class FileUpdateState {
    var moduleStates: Records

    /** `with_operation_type`. */
    constructor ()
      ensures moduleStates == INITIAL
    {
      moduleStates := INITIAL;
    }

    /** `mark_module_success`. */
    method MarkModuleSuccess(mod: ModuleType, now: Time)
      modifies this
      ensures moduleStates == AfterAll(old(moduleStates), Succeed(mod, now))
    {
      if mod in moduleStates {
        var record := moduleStates[mod];
        record := record.(state := Success);
        record := record.(lastAttempt := Some(now));
        record := record.(errorMessage := None);
        moduleStates := moduleStates[mod := record];
      }
    }

    /** `mark_module_failed`. */
    method MarkModuleFailed(mod: ModuleType, failure: TrackerFailure, now: Time)
      modifies this
      ensures moduleStates == AfterAll(old(moduleStates), Fail(mod, failure, now))
    {
      if mod in moduleStates {
        var record := moduleStates[mod];
        record := record.(retryCount := (record.retryCount + 1) % TWO_32);
        record := record.(errorMessage := Some(failure.message));
        record := record.(errorCode := failure.code);
        if !failure.retryable || record.retryCount >= MAX_RETRY_COUNT {
          record := record.(state := DeadLetter);
        } else {
          var delay := RetryDelay(record.retryCount).value;
          record := record.(state := Retrying(now + delay));
        }
        record := record.(lastAttempt := Some(now));
        moduleStates := moduleStates[mod := record];
      }
    }

    /** `set_module_truncated`. */
    method SetModuleTruncated(mod: ModuleType)
      modifies this
      ensures moduleStates == AfterAll(old(moduleStates), Truncate(mod))
    {
      if mod in moduleStates {
        moduleStates := moduleStates[mod := moduleStates[mod].(truncated := true)];
      }
    }

    /** `get_status_summary`. */
    method GetStatusSummary() returns (s: StatusSummary)
      requires Complete(moduleStates)
      ensures s == SummaryOf(moduleStates)
    {
      var success, failed, pending, updating, dead := 0, 0, 0, 0, 0;
      for i := 0 to |ALL_MODULES|
        invariant success == CountClass(moduleStates, i, CSuccess) && failed == CountClass(moduleStates, i, CFailed)
        invariant pending == CountClass(moduleStates, i, CPending) && updating == CountClass(moduleStates, i, CUpdating)
        invariant dead == CountClass(moduleStates, i, CDead)
      {
        match moduleStates[ALL_MODULES[i]].state {
          case Success => success := success + 1;
          case Failed => failed := failed + 1;
          case Retrying(_) => failed := failed + 1;
          case Pending => pending := pending + 1;
          case Updating => updating := updating + 1;
          case DeadLetter => dead := dead + 1;
        }
      }
      return StatusSummary(|ALL_MODULES|, success, failed, pending, updating, dead, AllSuccess(moduleStates), HasFailures(moduleStates));
    }
  }

  const INITIAL: Records :=
    map[Relation := DEFAULT_RECORD, Summary := DEFAULT_RECORD, Embedding := DEFAULT_RECORD,
        Bm25 := DEFAULT_RECORD, Export := DEFAULT_RECORD]

  /** All five modules have a record. */
  predicate Complete(rs: Records) { forall i :: 0 <= i < |ALL_MODULES| ==> ALL_MODULES[i] in rs }

  // ---------------------------------------------------------------- the summary

  datatype StatusSummary = StatusSummary(
    total: nat, success: nat, failed: nat, pending: nat, updating: nat, dead: nat, isComplete: bool, hasFailures: bool)

  datatype Class = CSuccess | CFailed | CPending | CUpdating | CDead

  function ClassOf(s: ModuleUpdateState): Class
  {
    match s
    case Success => CSuccess
    case Failed => CFailed
    case Retrying(_) => CFailed
    case Pending => CPending
    case Updating => CUpdating
    case DeadLetter => CDead
  }

  /** How many of the first `n` modules are of a class. */
  function CountClass(rs: Records, n: nat, c: Class): nat
    requires n <= |ALL_MODULES| && Complete(rs)
  {
    if n == 0 then 0 else CountClass(rs, n - 1, c) + if ClassOf(rs[ALL_MODULES[n - 1]].state) == c then 1 else 0
  }

  /** `all_success` and `has_failures`. */
  predicate AllSuccess(rs: Records)
    requires Complete(rs)
  {
    forall i :: 0 <= i < |ALL_MODULES| ==> rs[ALL_MODULES[i]].state.Success?
  }

  predicate HasFailures(rs: Records)
    requires Complete(rs)
  {
    exists i :: 0 <= i < |ALL_MODULES| && var s := rs[ALL_MODULES[i]].state; s.Failed? || s.Retrying? || s.DeadLetter?
  }

  function SummaryOf(rs: Records): StatusSummary
    requires Complete(rs)
  {
    var n := |ALL_MODULES|;
    StatusSummary(n, CountClass(rs, n, CSuccess), CountClass(rs, n, CFailed), CountClass(rs, n, CPending),
                  CountClass(rs, n, CUpdating), CountClass(rs, n, CDead), AllSuccess(rs), HasFailures(rs))
  }

  lemma {:induction false} CountsPartition(rs: Records, n: nat)
    requires n <= |ALL_MODULES| && Complete(rs)
    ensures CountClass(rs, n, CSuccess) + CountClass(rs, n, CFailed) + CountClass(rs, n, CPending)
            + CountClass(rs, n, CUpdating) + CountClass(rs, n, CDead) == n
  {
    if n > 0 { CountsPartition(rs, n - 1); }
  }

  lemma {:induction false} CountPositiveIff(rs: Records, n: nat, c: Class)
    requires n <= |ALL_MODULES| && Complete(rs)
    ensures CountClass(rs, n, c) > 0 <==> exists i :: 0 <= i < n && ClassOf(rs[ALL_MODULES[i]].state) == c
  {
    if n > 0 { CountPositiveIff(rs, n - 1, c); }
  }

  lemma {:induction false} CountAllIff(rs: Records, n: nat, c: Class)
    requires n <= |ALL_MODULES| && Complete(rs)
    ensures CountClass(rs, n, c) <= n
    ensures CountClass(rs, n, c) == n <==> forall i :: 0 <= i < n ==> ClassOf(rs[ALL_MODULES[i]].state) == c
  {
    if n > 0 { CountAllIff(rs, n - 1, c); }
  }

  /** The counts partition the modules and agree with both flags. */
  lemma SummaryAgrees(rs: Records)
    requires Complete(rs)
    ensures var s := SummaryOf(rs);
            && s.success + s.failed + s.pending + s.updating + s.dead == s.total == 5
            && (s.isComplete <==> s.success == s.total)
            && (s.hasFailures <==> s.failed + s.dead > 0)
  {
    hide CountClass;
    var n := |ALL_MODULES|;
    CountsPartition(rs, n);
    CountAllIff(rs, n, CSuccess);
    CountPositiveIff(rs, n, CFailed);
    CountPositiveIff(rs, n, CDead);
    assert AllSuccess(rs) <==> forall i :: 0 <= i < n ==> ClassOf(rs[ALL_MODULES[i]].state) == CSuccess;
    assert HasFailures(rs) <==>
           || (exists i :: 0 <= i < n && ClassOf(rs[ALL_MODULES[i]].state) == CFailed)
           || (exists i :: 0 <= i < n && ClassOf(rs[ALL_MODULES[i]].state) == CDead) by {
      if HasFailures(rs) {
        var i :| 0 <= i < |ALL_MODULES| && var s := rs[ALL_MODULES[i]].state; s.Failed? || s.Retrying? || s.DeadLetter?;
        assert ClassOf(rs[ALL_MODULES[i]].state) == CFailed || ClassOf(rs[ALL_MODULES[i]].state) == CDead;
      }
    }
  }

  // ---------------------------------------------------------------- runs

  /** The records after a history of marks, the latest last. */
  function Run(marks: seq<Mark>): Records
  {
    if marks == [] then INITIAL else AfterAll(Run(marks[..|marks| - 1]), marks[|marks| - 1])
  }

  function Failures(marks: seq<Mark>, m: ModuleType): nat
  {
    if marks == [] then 0
    else
      var last := marks[|marks| - 1];
      Failures(marks[..|marks| - 1], m) + if last.Fail? && last.mod == m then 1 else 0
  }

  /** The module's latest success or failure, and how many failures came up to it. */
  function LastOutcome(marks: seq<Mark>, m: ModuleType): Option<(Mark, nat)>
  {
    if marks == [] then None
    else
      var last := marks[|marks| - 1];
      if last.mod == m && !last.Truncate? then Some((last, Failures(marks, m)))
      else LastOutcome(marks[..|marks| - 1], m)
  }

  predicate EverTruncated(marks: seq<Mark>, m: ModuleType) { Truncate(m) in marks }

  /** The code of the latest failure, successes notwithstanding. */
  function LastCode(marks: seq<Mark>, m: ModuleType): Option<string>
  {
    if marks == [] then None
    else
      var last := marks[|marks| - 1];
      if last.Fail? && last.mod == m then last.failure.code else LastCode(marks[..|marks| - 1], m)
  }

  /** The state a history leaves, said without the records. */
  function StateOf(marks: seq<Mark>, m: ModuleType): ModuleUpdateState
  {
    match LastOutcome(marks, m)
    case None => Pending
    case Some((o, failures)) =>
      if o.Succeed? then Success
      else if o.Truncate? || !o.failure.retryable || failures >= MAX_RETRY_COUNT then DeadLetter
      else Retrying(o.now + if failures == 1 then 5 else 10)
  }

  /** When the module was last attempted. */
  function AttemptOf(marks: seq<Mark>, m: ModuleType): Option<Time>
  {
    match LastOutcome(marks, m)
    case None => None
    case Some((o, _)) => match o case Succeed(_, now) => Some(now) case Fail(_, _, now) => Some(now) case Truncate(_) => None
  }

  /** The message of the latest failure, if no success has come after it. */
  function MessageOf(marks: seq<Mark>, m: ModuleType): Option<string>
  {
    match LastOutcome(marks, m)
    case None => None
    case Some((o, _)) => if o.Fail? then Some(o.failure.message) else None
  }

  lemma {:induction false} FailuresAtMost(marks: seq<Mark>, m: ModuleType)
    ensures Failures(marks, m) <= |marks|
  {
    if marks != [] { FailuresAtMost(marks[..|marks| - 1], m); }
  }

  lemma {:induction false} RunComplete(marks: seq<Mark>, m: ModuleType)
    ensures Complete(Run(marks)) && m in Run(marks)
  {
    if marks != [] { RunComplete(marks[..|marks| - 1], m); }
  }

  /** A history of one more mark. */
  lemma RunSnoc(marks: seq<Mark>, m: ModuleType)
    requires marks != []
    ensures m in Run(marks) && m in Run(marks[..|marks| - 1])
    ensures var r, last := Run(marks[..|marks| - 1])[m], marks[|marks| - 1];
            Run(marks)[m] == if last.mod == m then After(r, last) else r
  {
    RunComplete(marks, m);
    RunComplete(marks[..|marks| - 1], m);
  }

  lemma {:induction false} CountIs(marks: seq<Mark>, m: ModuleType)
    requires |marks| < TWO_32
    ensures m in Run(marks) && Run(marks)[m].retryCount == Failures(marks, m)
  {
    hide Run, RetryDelay;
    if marks == [] {
      RunOfNone(m);
    } else {
      RunSnoc(marks, m);
      CountIs(marks[..|marks| - 1], m);
      FailuresAtMost(marks[..|marks| - 1], m);
    }
  }

  lemma RunOfNone(m: ModuleType)
    ensures m in Run([]) && Run([])[m] == DEFAULT_RECORD
  {}

  lemma {:induction false} StateIs(marks: seq<Mark>, m: ModuleType)
    requires |marks| < TWO_32
    ensures m in Run(marks) && Run(marks)[m].state == StateOf(marks, m)
  {
    hide Run, RetryDelay;
    if marks == [] {
      RunOfNone(m);
    } else {
      var last := marks[|marks| - 1];
      RunSnoc(marks, m);
      StateIs(marks[..|marks| - 1], m);
      CountIs(marks, m);
      CountIs(marks[..|marks| - 1], m);
      if last.mod == m && last.Fail? && last.failure.retryable && Failures(marks, m) < MAX_RETRY_COUNT {
        DelaysAskedFor(Failures(marks, m));
      }
    }
  }

  lemma {:induction false} CodeAndTruncationAre(marks: seq<Mark>, m: ModuleType)
    ensures m in Run(marks) && Run(marks)[m].errorCode == LastCode(marks, m) && Run(marks)[m].truncated == EverTruncated(marks, m)
  {
    hide Run, RetryDelay;
    if marks == [] {
      RunOfNone(m);
    } else {
      RunSnoc(marks, m);
      CodeAndTruncationAre(marks[..|marks| - 1], m);
      assert marks == marks[..|marks| - 1] + [marks[|marks| - 1]];
    }
  }

  lemma {:induction false} AttemptAndMessageAre(marks: seq<Mark>, m: ModuleType)
    ensures m in Run(marks) && Run(marks)[m].lastAttempt == AttemptOf(marks, m) && Run(marks)[m].errorMessage == MessageOf(marks, m)
  {
    hide Run, RetryDelay, Failures;
    if marks == [] {
      RunOfNone(m);
    } else {
      RunSnoc(marks, m);
      AttemptAndMessageAre(marks[..|marks| - 1], m);
    }
  }

  /** What every record is after any history from construction on. */
  lemma RunIs(marks: seq<Mark>, m: ModuleType)
    requires |marks| < TWO_32
    ensures Complete(Run(marks)) && m in Run(marks)
    ensures var r := Run(marks)[m];
            && r.retryCount == Failures(marks, m)
            && r.state == StateOf(marks, m)
            && r.errorCode == LastCode(marks, m)
            && r.truncated == EverTruncated(marks, m)
            && r.lastAttempt == AttemptOf(marks, m)
            && r.errorMessage == MessageOf(marks, m)
  {
    AttemptAndMessageAre(marks, m);
    RunComplete(marks, m);
    CountIs(marks, m);
    StateIs(marks, m);
    CodeAndTruncationAre(marks, m);
  }

  /** Whether the module's latest outcome was a failure that retrying cannot repair. */
  predicate LastIsPermanent(marks: seq<Mark>, m: ModuleType)
  {
    var o := LastOutcome(marks, m);
    o.Some? && o.value.0.Fail? && !o.value.0.failure.retryable
  }

  /** In every run: what each state implies about the retry count, and the only delays asked for. */
  lemma StatesImply(marks: seq<Mark>, m: ModuleType)
    requires |marks| < TWO_32
    ensures m in Run(marks)
    ensures var r := Run(marks)[m];
            && (r.state.Retrying? ==> 1 <= r.retryCount <= 2)
            && (r.state.DeadLetter? ==> r.retryCount >= 3 || LastIsPermanent(marks, m))
            && !r.state.Failed? && !r.state.Updating?
  {
    RunIs(marks, m);
    OutcomeShape(marks, m);
  }

  lemma {:induction false} OutcomeShape(marks: seq<Mark>, m: ModuleType)
    ensures var o := LastOutcome(marks, m);
            && (o.Some? ==> !o.value.0.Truncate? && o.value.1 == Failures(marks, m))
            && (o.Some? && o.value.0.Fail? ==> Failures(marks, m) >= 1)
            && (o.None? ==> Failures(marks, m) == 0)
  {
    if marks != [] { OutcomeShape(marks[..|marks| - 1], m); }
  }

  /** Who may be truncated: exactly the never-truncated modules whose latest outcome is a token-limit dead letter. */
  lemma TruncateCandidateIff(marks: seq<Mark>, m: ModuleType)
    requires |marks| < TWO_32
    ensures m in Run(marks)
    ensures Run(marks)[m].IsTruncateCandidate() <==>
            && Truncate(m) !in marks
            && StateOf(marks, m).DeadLetter?
            && LastCode(marks, m) == Some(TOKEN_LIMIT_ERROR_CODE)
  {
    RunIs(marks, m);
  }

  /** Once truncated, never a candidate again. */
  lemma TruncatedForGood(marks: seq<Mark>, more: seq<Mark>, m: ModuleType)
    requires |marks + more| < TWO_32 && Truncate(m) in marks
    ensures m in Run(marks + more) && !Run(marks + more)[m].IsTruncateCandidate()
  {
    TruncateCandidateIff(marks + more, m);
  }

  /** A dead letter is left by a success, and by a failure exactly when that one may still be retried. */
  lemma DeadLetterStaysIff(marks: seq<Mark>, m: ModuleType, f: TrackerFailure, now: Time)
    requires |marks| + 1 < TWO_32 && StateOf(marks, m).DeadLetter?
    ensures m in Run(marks + [Fail(m, f, now)])
    ensures Run(marks + [Fail(m, f, now)])[m].state.DeadLetter? <==> !f.retryable || Failures(marks, m) >= 2
  {
    var longer := marks + [Fail(m, f, now)];
    assert longer[..|longer| - 1] == marks;
    RunIs(longer, m);
  }

  /** Dead letters are not absorbing: a permanent failure, then a transient one. */
  lemma DeadLetterCanRetry(m: ModuleType)
    ensures var permanent, transient := TrackerFailure("bad input", None, false), TrackerFailure("timeout", None, true);
            && StateOf([Fail(m, permanent, 0)], m) == DeadLetter
            && StateOf([Fail(m, permanent, 0), Fail(m, transient, 1)], m) == Retrying(11)
  {
    var permanent, transient := TrackerFailure("bad input", None, false), TrackerFailure("timeout", None, true);
    var one := [Fail(m, permanent, 0)];
    var two := [Fail(m, permanent, 0), Fail(m, transient, 1)];
    assert two[..1] == one && one[..0] == [];
    assert Failures(one, m) == 1 && Failures(two, m) == 2;
  }
}

/** Cron and webhook claims: conditional UPDATEs guarded by claim tokens, and the set of processed
    webhook events.  Every statement is atomic. */
module AutomationClaims {
  import opened Ordering

  datatype Kind = Cron | Webhook

  datatype Automation = Automation(active: bool, kind: Kind)

  datatype CronTrigger = CronTrigger(nextRun: Option<int>, lastRun: Option<int>, token: Option<int>, until: Option<int>)

  datatype Hook = Hook(event: Option<string>, token: Option<int>, until: Option<int>, lastEvent: Option<string>,
                       received: Option<int>, started: Option<int>, succeeded: Option<int>, failed: Option<int>,
                       error: Option<string>, session: Option<string>)

  datatype Event = Event(automation: int, hash: string)

  datatype Store = Store(automations: map<int, Automation>, crons: map<int, CronTrigger>, hooks: map<int, Hook>,
                         processed: set<Event>, used: set<int>)

  datatype Op =
    | SetActive(id: int, active: bool)
    | ClaimCron(id: int, due: int, until: int, token: int)
    | CronExecuted(id: int, token: int, nextRun: int, executedAt: int)
    | RefreshCron(id: int, token: int, until: int)
    | ReleaseCron(id: int, token: int)
    | ClaimHook(id: int, at: int, hash: string, until: int, token: int, session: string)
    | CompleteHook(id: int, hash: string, token: int, at: int)
    | ReleaseHook(id: int, hash: string, token: int, at: int, error: string)
    | StartHook(id: int, hash: string, token: int, at: int)
    | RefreshHook(id: int, hash: string, token: int, until: int)

  predicate Passed(until: Option<int>, now: int) { until.None? || until.value <= now }

  predicate IsActive(st: Store, id: int, kind: Kind) {
    id in st.automations && st.automations[id].active && st.automations[id].kind == kind
  }

  predicate HoldsCron(st: Store, id: int, token: int) { id in st.crons && st.crons[id].token == Some(token) }

  predicate HoldsHook(st: Store, id: int, hash: string, token: int) {
    id in st.hooks && st.hooks[id].event == Some(hash) && st.hooks[id].token == Some(token)
  }

  /** Does the statement update a row? */
  predicate Matches(st: Store, op: Op) {
    match op
    case SetActive(id, _) => id in st.automations
    case ClaimCron(id, due, _, _) =>
      id in st.crons && IsActive(st, id, Cron) && Passed(st.crons[id].nextRun, due) && Passed(st.crons[id].until, due)
    case CronExecuted(id, token, _, _) => HoldsCron(st, id, token)
    case RefreshCron(id, token, _) => HoldsCron(st, id, token)
    case ReleaseCron(id, token) => HoldsCron(st, id, token)
    case ClaimHook(id, at, hash, _, _, _) =>
      id in st.hooks && IsActive(st, id, Webhook) && Event(id, hash) !in st.processed
      && (st.hooks[id].event.None? || Passed(st.hooks[id].until, at))
    case CompleteHook(id, hash, token, _) => HoldsHook(st, id, hash, token)
    case ReleaseHook(id, hash, token, _, _) => HoldsHook(st, id, hash, token)
    case StartHook(id, hash, token, _) => HoldsHook(st, id, hash, token)
    case RefreshHook(id, hash, token, _) => HoldsHook(st, id, hash, token)
  }

  function PutCron(st: Store, id: int, c: CronTrigger): Store { st.(crons := st.crons[id := c]) }

  function PutHook(st: Store, id: int, h: Hook): Store { st.(hooks := st.hooks[id := h]) }

  function Idle(h: Hook): Hook { h.(event := None, token := None, until := None) }

  function Apply(st: Store, op: Op): Store {
    if !Matches(st, op) then st
    else
      match op
      case SetActive(id, active) => st.(automations := st.automations[id := st.automations[id].(active := active)])
      case ClaimCron(id, _, until, token) =>
        PutCron(st, id, st.crons[id].(until := Some(until), token := Some(token))).(used := st.used + {token})
      case CronExecuted(id, _, nextRun, executedAt) =>
        PutCron(st, id, CronTrigger(Some(nextRun), Some(executedAt), None, None))
      case RefreshCron(id, _, until) => PutCron(st, id, st.crons[id].(until := Some(until)))
      case ReleaseCron(id, _) => PutCron(st, id, st.crons[id].(until := None, token := None))
      case ClaimHook(id, at, hash, until, token, session) =>
        PutHook(st, id, st.hooks[id].(event := Some(hash), token := Some(token), until := Some(until), received := Some(at),
                                      session := Some(session), error := None)).(used := st.used + {token})
      case CompleteHook(id, hash, _, at) =>
        PutHook(st, id, Idle(st.hooks[id]).(lastEvent := Some(hash), succeeded := Some(at), error := None))
          .(processed := st.processed + {Event(id, hash)})
      case ReleaseHook(id, _, _, at, error) => PutHook(st, id, Idle(st.hooks[id]).(failed := Some(at), error := Some(error)))
      case StartHook(id, _, _, at) => PutHook(st, id, st.hooks[id].(started := Some(at)))
      case RefreshHook(id, _, _, until) => PutHook(st, id, st.hooks[id].(until := Some(until)))
  }

  /** A claim needs a fresh token; nothing else is asked of callers. */
  predicate Allowed(st: Store, op: Op) {
    match op
    case ClaimCron(_, _, _, token) => token !in st.used
    case ClaimHook(_, _, _, _, token, _) => token !in st.used
    case _ => true
  }

  ghost predicate CronTokenOf(st: Store, token: int) { exists id :: HoldsCron(st, id, token) }

  ghost predicate HookTokenOf(st: Store, token: int) { exists id | id in st.hooks :: st.hooks[id].token == Some(token) }

  /** The event in progress is never one that was processed; a claim is all there or not at all; tokens
      are unique across triggers. */
  ghost predicate Inv(st: Store) {
    && (forall id | id in st.hooks :: HookInv(st.hooks[id]))
    && (forall id | id in st.hooks && st.hooks[id].event.Some? :: Event(id, st.hooks[id].event.value) !in st.processed)
    && (forall id | id in st.hooks && st.hooks[id].token.Some? :: st.hooks[id].token.value in st.used)
    && (forall id | id in st.crons && st.crons[id].token.Some? :: st.crons[id].token.value in st.used)
    && (forall a, b | a in st.hooks && b in st.hooks && st.hooks[a].token.Some? && st.hooks[a].token == st.hooks[b].token :: a == b)
    && (forall a, b | a in st.crons && b in st.crons && st.crons[a].token.Some? && st.crons[a].token == st.crons[b].token :: a == b)
  }

  predicate HookInv(h: Hook) { h.event.Some? == h.token.Some? == h.until.Some? }

  predicate OnHooks(op: Op) { op.ClaimHook? || op.CompleteHook? || op.ReleaseHook? || op.StartHook? || op.RefreshHook? }

  lemma OpKeepsInv(st: Store, op: Op)
    requires Inv(st) && Allowed(st, op)
    ensures Inv(Apply(st, op))
  {
    hide Inv;
    if OnHooks(op) { HookOpKeepsInv(st, op); } else { CronOpKeepsInv(st, op); }
  }

  lemma HookOpKeepsInv(st: Store, op: Op)
    requires Inv(st) && Allowed(st, op) && OnHooks(op)
    ensures Inv(Apply(st, op))
  {
  }

  lemma CronOpKeepsInv(st: Store, op: Op)
    requires Inv(st) && Allowed(st, op) && !OnHooks(op)
    ensures Inv(Apply(st, op))
  {
  }

  function Run(st: Store, ops: seq<Op>): Store
    decreases |ops|
  {
    if ops == [] then st
    else
      var before := Run(st, ops[..|ops| - 1]);
      if Allowed(before, ops[|ops| - 1]) then Apply(before, ops[|ops| - 1]) else before
  }

  lemma {:induction false} RunKeepsInv(st: Store, ops: seq<Op>)
    requires Inv(st)
    ensures Inv(Run(st, ops))
    decreases |ops|
  {
    if ops != [] {
      RunKeepsInv(st, ops[..|ops| - 1]);
      var before := Run(st, ops[..|ops| - 1]);
      if Allowed(before, ops[|ops| - 1]) { OpKeepsInv(before, ops[|ops| - 1]); }
    }
  }

  // ----- webhook events complete at most once -----

  function Completions(st: Store, ops: seq<Op>, e: Event): nat
    decreases |ops|
  {
    if ops == [] then 0
    else
      var before, op := Run(st, ops[..|ops| - 1]), ops[|ops| - 1];
      Completions(st, ops[..|ops| - 1], e) +
      (if op.CompleteHook? && Event(op.id, op.hash) == e && Matches(before, op) then 1 else 0)
  }

  /** Over a whole run an event completes exactly as often as it enters the processed set: at most once,
      and never when it was processed before. */
  lemma {:induction false} CompletesAtMostOnce(st: Store, ops: seq<Op>, e: Event)
    requires Inv(st)
    ensures Completions(st, ops, e) == (if e in Run(st, ops).processed && e !in st.processed then 1 else 0)
    ensures st.processed <= Run(st, ops).processed
    decreases |ops|
  {
    if ops != [] {
      var before, op := Run(st, ops[..|ops| - 1]), ops[|ops| - 1];
      CompletesAtMostOnce(st, ops[..|ops| - 1], e);
      RunKeepsInv(st, ops[..|ops| - 1]);
      ProcessedStep(before, op);
      hide Apply, Inv, Matches;
    }
  }

  lemma ProcessedStep(st: Store, op: Op)
    requires Inv(st)
    ensures if op.CompleteHook? && Matches(st, op) then
              Event(op.id, op.hash) !in st.processed && Apply(st, op).processed == st.processed + {Event(op.id, op.hash)}
            else Apply(st, op).processed == st.processed
  {
  }

  /** A processed event is never claimed again, whatever happens after its completion. */
  lemma ProcessedIsNeverClaimed(st: Store, ops: seq<Op>, e: Event, at: int, until: int, token: int, session: string)
    requires Inv(st) && e in st.processed
    ensures !Matches(Run(st, ops), ClaimHook(e.automation, at, e.hash, until, token, session))
    ensures e.automation in Run(st, ops).hooks ==> Run(st, ops).hooks[e.automation].event != Some(e.hash)
  {
    CompletesAtMostOnce(st, ops, e);
    RunKeepsInv(st, ops);
  }

  // ----- exclusion and fencing -----

  /** While a claim's lease lies ahead of a claimer's clock, no other claim on that trigger succeeds. */
  lemma LeasesExclude(st: Store, id: int, now: int)
    requires Inv(st)
    ensures id in st.crons && st.crons[id].until.Some? && now < st.crons[id].until.value ==>
              forall until, token :: !Matches(st, ClaimCron(id, now, until, token))
    ensures id in st.hooks && st.hooks[id].until.Some? && now < st.hooks[id].until.value ==>
              forall hash, until, token, session :: !Matches(st, ClaimHook(id, now, hash, until, token, session))
  {
  }

  /** The claim or heartbeat of a token: it asks for a lease on one trigger. */
  predicate AsksForLease(op: Op) { op.ClaimCron? || op.RefreshCron? || op.ClaimHook? || op.RefreshHook? }

  /** The claim with this token is still open on the trigger the operation leased. */
  predicate StillOpen(st: Store, op: Op)
    requires AsksForLease(op)
  {
    if op.ClaimCron? || op.RefreshCron? then op.id in st.crons && st.crons[op.id].token == Some(op.token)
    else op.id in st.hooks && st.hooks[op.id].token == Some(op.token)
  }

  predicate OwnHeartbeat(next: Op, op: Op)
    requires AsksForLease(op)
  {
    (next.RefreshCron? || next.RefreshHook?) && next.token == op.token
  }

  /** A claim of the trigger that `op` leased, by a claimer whose clock shows `now`. */
  predicate IsRival(next: Op, op: Op, now: int)
    requires AsksForLease(op)
  {
    if op.ClaimCron? || op.RefreshCron? then next.ClaimCron? && next.id == op.id && next.due == now
    else next.ClaimHook? && next.id == op.id && next.at == now
  }

  /** While the claim is open its lease is at least what was asked for. */
  predicate LeaseHolds(st: Store, op: Op)
    requires AsksForLease(op)
  {
    StillOpen(st, op) ==>
      if op.ClaimCron? || op.RefreshCron? then st.crons[op.id].until.Some? && st.crons[op.id].until.value >= op.until
      else st.hooks[op.id].event.Some? && st.hooks[op.id].until.Some? && st.hooks[op.id].until.value >= op.until
  }

  lemma LeaseIsAsked(st: Store, op: Op)
    requires Inv(st) && Allowed(st, op) && AsksForLease(op) && Matches(st, op)
    ensures Inv(Apply(st, op)) && op.token in Apply(st, op).used && StillOpen(Apply(st, op), op) && LeaseHolds(Apply(st, op), op)
  {
    OpKeepsInv(st, op);
  }

  lemma LeaseStep(st: Store, op: Op, next: Op)
    requires Inv(st) && AsksForLease(op) && Allowed(st, next) && op.token in st.used && LeaseHolds(st, op)
    requires OwnHeartbeat(next, op) ==> next.until >= op.until
    ensures op.token in Apply(st, next).used && LeaseHolds(Apply(st, next), op)
  {
  }

  lemma StaysOpen(st: Store, op: Op, next: Op)
    requires Inv(st) && AsksForLease(op) && Allowed(st, next) && StillOpen(st, op) && LeaseHolds(st, op)
    requires !(Closes(next) && TokenOf(next) == Some(op.token))
    requires forall now | IsRival(next, op, now) :: now < op.until
    ensures StillOpen(Apply(st, next), op)
  {
    if Matches(st, next) {
      match next
      case ClaimCron(_, due, _, _) => assert IsRival(next, op, due) || next.id != op.id || !(op.ClaimCron? || op.RefreshCron?);
      case ClaimHook(_, at, _, _, _, _) => assert IsRival(next, op, at) || next.id != op.id || op.ClaimCron? || op.RefreshCron?;
      case _ =>
    }
  }

  lemma OpenLeaseExcludes(st: Store, op: Op, now: int)
    requires Inv(st) && AsksForLease(op) && LeaseHolds(st, op) && StillOpen(st, op) && now < op.until
    ensures forall rival | IsRival(rival, op, now) :: !Matches(st, rival)
  {
  }

  lemma {:induction false} LeaseHoldsThroughout(st: Store, op: Op, ops: seq<Op>)
    requires Inv(st) && Allowed(st, op) && AsksForLease(op) && Matches(st, op)
    requires forall i | 0 <= i < |ops| && OwnHeartbeat(ops[i], op) :: ops[i].until >= op.until
    ensures op.token in Run(Apply(st, op), ops).used && LeaseHolds(Run(Apply(st, op), ops), op) && Inv(Run(Apply(st, op), ops))
    decreases |ops|
  {
    hide Inv, Apply, Matches, LeaseHolds;
    LeaseIsAsked(st, op);
    RunKeepsInv(Apply(st, op), ops);
    if ops != [] {
      var before, next := Run(Apply(st, op), ops[..|ops| - 1]), ops[|ops| - 1];
      LeaseHoldsThroughout(st, op, ops[..|ops| - 1]);
      if Allowed(before, next) { LeaseStep(before, op, next); }
    }
  }

  /** A successful claim or heartbeat excludes every claimer whose clock is before the end of the lease it asked
      for, in whatever run follows, for as long as the claim is open and its own heartbeats ask for no less. */
  lemma LeaseExcludesRivals(st: Store, op: Op, ops: seq<Op>, now: int)
    requires Inv(st) && Allowed(st, op) && AsksForLease(op) && Matches(st, op) && now < op.until
    requires forall i | 0 <= i < |ops| && OwnHeartbeat(ops[i], op) :: ops[i].until >= op.until
    ensures StillOpen(Run(Apply(st, op), ops), op) ==> forall rival | IsRival(rival, op, now) :: !Matches(Run(Apply(st, op), ops), rival)
  {
    hide Inv, Apply, Matches, LeaseHolds;
    LeaseHoldsThroughout(st, op, ops);
    if StillOpen(Run(Apply(st, op), ops), op) { OpenLeaseExcludes(Run(Apply(st, op), ops), op, now); }
  }

  /** Right after it, a claimer of the trigger succeeds exactly when its clock has reached the end of the lease, and the
      trigger is due and active, or the event is new and the automation active. */
  lemma RivalSucceedsFromLeaseOn(st: Store, op: Op, rival: Op, now: int)
    requires Inv(st) && Allowed(st, op) && AsksForLease(op) && Matches(st, op) && IsRival(rival, op, now)
    ensures Matches(Apply(st, op), rival) <==>
              && now >= op.until && op.id in st.automations && st.automations[op.id].active
              && (rival.ClaimCron? ==> st.automations[op.id].kind == Cron
                                       && (st.crons[op.id].nextRun.None? || st.crons[op.id].nextRun.value <= now))
              && (rival.ClaimHook? ==> st.automations[op.id].kind == Webhook && Event(op.id, rival.hash) !in st.processed)
  {
  }

  /** And the claim stays open until its own token closes it or a claimer comes at or after the end of the lease. */
  lemma {:induction false} LeasedClaimStaysOpen(st: Store, op: Op, ops: seq<Op>)
    requires Inv(st) && Allowed(st, op) && AsksForLease(op) && Matches(st, op)
    requires forall i | 0 <= i < |ops| && OwnHeartbeat(ops[i], op) :: ops[i].until >= op.until
    requires forall i | 0 <= i < |ops| :: !(Closes(ops[i]) && TokenOf(ops[i]) == Some(op.token))
    requires forall i, now | 0 <= i < |ops| && IsRival(ops[i], op, now) :: now < op.until
    ensures StillOpen(Run(Apply(st, op), ops), op)
    decreases |ops|
  {
    hide Inv, Apply, Matches, LeaseHolds, StillOpen, IsRival;
    LeaseIsAsked(st, op);
    if ops != [] {
      var before, next := Run(Apply(st, op), ops[..|ops| - 1]), ops[|ops| - 1];
      LeasedClaimStaysOpen(st, op, ops[..|ops| - 1]);
      LeaseHoldsThroughout(st, op, ops[..|ops| - 1]);
      if Allowed(before, next) { StaysOpen(before, op, next); }
    }
  }

  function TokenOf(op: Op): Option<int> {
    match op
    case SetActive(_, _) => None
    case ClaimCron(_, _, _, _) => None
    case ClaimHook(_, _, _, _, _, _) => None
    case CronExecuted(_, token, _, _) => Some(token)
    case RefreshCron(_, token, _) => Some(token)
    case ReleaseCron(_, token) => Some(token)
    case CompleteHook(_, _, token, _) => Some(token)
    case ReleaseHook(_, _, token, _, _) => Some(token)
    case StartHook(_, _, token, _) => Some(token)
    case RefreshHook(_, _, token, _) => Some(token)
  }

  predicate Closes(op: Op) { op.CronExecuted? || op.ReleaseCron? || op.CompleteHook? || op.ReleaseHook? }

  ghost predicate Dead(st: Store, token: int) { token in st.used && !CronTokenOf(st, token) && !HookTokenOf(st, token) }

  /** A claim that takes over an expired trigger kills the token it supersedes. */
  lemma SupersededTokenIsDead(st: Store, op: Op, gone: int)
    requires Inv(st) && Separate(st) && Allowed(st, op) && Matches(st, op)
    requires (op.ClaimHook? && st.hooks[op.id].token == Some(gone)) || (op.ClaimCron? && st.crons[op.id].token == Some(gone))
    ensures Dead(Apply(st, op), gone)
  {
    var after := Apply(st, op);
    if op.ClaimCron? { assert HoldsCron(st, op.id, gone) && CronTokenOf(st, gone); } else { assert HookTokenOf(st, gone); }
    forall id ensures !HoldsCron(after, id, gone) {
      assert HoldsCron(st, id, gone) ==> CronTokenOf(st, gone);
    }
  }

  /** A token that was closed or superseded stays dead, and every later call with it changes nothing. */
  lemma {:induction false} DeadTokensStayDead(st: Store, ops: seq<Op>, token: int)
    requires Inv(st) && Dead(st, token)
    ensures Dead(Run(st, ops), token)
    ensures forall op: Op | TokenOf(op) == Some(token) :: !Matches(Run(st, ops), op) && Apply(Run(st, ops), op) == Run(st, ops)
    decreases |ops|
  {
    if ops != [] {
      var before, op := Run(st, ops[..|ops| - 1]), ops[|ops| - 1];
      DeadTokensStayDead(st, ops[..|ops| - 1], token);
      if Allowed(before, op) { StaysDead(before, op, token); }
    }
  }

  lemma StaysDead(st: Store, op: Op, token: int)
    requires Dead(st, token) && Allowed(st, op)
    ensures Dead(Apply(st, op), token)
  {
    forall id ensures !HoldsCron(Apply(st, op), id, token) { assert !HoldsCron(st, id, token); }
  }

  function Closings(st: Store, ops: seq<Op>, token: int): nat
    decreases |ops|
  {
    if ops == [] then 0
    else
      var before, op := Run(st, ops[..|ops| - 1]), ops[|ops| - 1];
      Closings(st, ops[..|ops| - 1], token) + (if Closes(op) && TokenOf(op) == Some(token) && Matches(before, op) then 1 else 0)
  }

  /** A token names a claim on one trigger only, so it is closed at most once. */
  ghost predicate Separate(st: Store) { forall token | CronTokenOf(st, token) :: !HookTokenOf(st, token) }

  lemma {:induction false} ClosedAtMostOnce(st: Store, ops: seq<Op>, token: int)
    requires Inv(st) && Separate(st)
    ensures Closings(st, ops, token) <= 1 && (Closings(st, ops, token) == 1 ==> Dead(Run(st, ops), token))
    ensures Separate(Run(st, ops))
    decreases |ops|
  {
    if ops != [] {
      var before, op := Run(st, ops[..|ops| - 1]), ops[|ops| - 1];
      ClosedAtMostOnce(st, ops[..|ops| - 1], token);
      RunKeepsInv(st, ops[..|ops| - 1]);
      if Allowed(before, op) {
        StaysSeparate(before, op);
        if Dead(before, token) {
          StaysDead(before, op, token);
        } else if Closes(op) && TokenOf(op) == Some(token) && Matches(before, op) {
          CloseKillsToken(before, op, token);
        }
      }
    }
  }

  lemma StaysSeparate(st: Store, op: Op)
    requires Inv(st) && Separate(st) && Allowed(st, op)
    ensures Separate(Apply(st, op))
  {
    var after := Apply(st, op);
    forall token | CronTokenOf(after, token) ensures !HookTokenOf(after, token) {
      var id :| HoldsCron(after, id, token);
      if HoldsCron(st, id, token) { assert CronTokenOf(st, token); }
    }
  }

  lemma CloseKillsToken(st: Store, op: Op, token: int)
    requires Inv(st) && Separate(st) && Closes(op) && TokenOf(op) == Some(token) && Matches(st, op)
    ensures Dead(Apply(st, op), token)
  {
    var after := Apply(st, op);
    assert CronTokenOf(st, token) || HookTokenOf(st, token) by {
      if op.CronExecuted? || op.ReleaseCron? { assert HoldsCron(st, op.id, token); }
    }
    forall id ensures !HoldsCron(after, id, token) {
      assert HoldsCron(st, id, token) ==> CronTokenOf(st, token);
    }
  }

  /** The claims mixin of the repository, updating its rows in place. */
  class Claims {
    var automations: map<int, Automation>
    var crons: map<int, CronTrigger>
    var hooks: map<int, Hook>
    var processed: set<Event>
    ghost var used: set<int>

    ghost function Abs(): Store
      reads this
    {
      Store(automations, crons, hooks, processed, used)
    }

    ghost predicate Valid()
      reads this
    {
      Inv(Abs())
    }

    predicate IsLive(id: int, kind: Kind)
      reads `automations
    {
      id in automations && automations[id].active && automations[id].kind == kind
    }

    predicate OwnsCron(id: int, token: int)
      reads `crons
    {
      id in crons && crons[id].token == Some(token)
    }

    predicate OwnsHook(id: int, hash: string, token: int)
      reads `hooks
    {
      id in hooks && hooks[id].event == Some(hash) && hooks[id].token == Some(token)
    }

    method ClaimCronExecution(id: int, due: int, until: int, token: int) returns (ok: bool)
      requires Valid() && token !in used
      modifies this
      ensures Valid() && Abs() == Apply(old(Abs()), Op.ClaimCron(id, due, until, token))
      ensures ok <==> && id in old(crons) && id in automations && automations[id].active && automations[id].kind == Cron
                      && (old(crons)[id].nextRun.None? || old(crons)[id].nextRun.value <= due)
                      && (old(crons)[id].until.None? || old(crons)[id].until.value <= due)
      ensures crons == if ok then old(crons)[id := old(crons)[id].(until := Some(until), token := Some(token))] else old(crons)
      ensures automations == old(automations) && hooks == old(hooks) && processed == old(processed)
    {
      ghost var op := Op.ClaimCron(id, due, until, token);
      OpKeepsInv(Abs(), op);
      ok := id in crons && IsLive(id, Cron) && Passed(crons[id].nextRun, due) && Passed(crons[id].until, due);
      if ok {
        crons := crons[id := crons[id].(until := Some(until), token := Some(token))];
        used := used + {token};
      }
    }

    method MarkCronExecuted(id: int, token: int, nextRun: int, executedAt: int) returns (ok: bool)
      requires Valid()
      modifies this
      ensures Valid() && Abs() == Apply(old(Abs()), CronExecuted(id, token, nextRun, executedAt))
      ensures ok <==> id in old(crons) && old(crons)[id].token == Some(token)
      ensures crons == if !ok then old(crons) else
                old(crons)[id := CronTrigger(Some(nextRun), Some(executedAt), None, None)]
      ensures automations == old(automations) && hooks == old(hooks) && processed == old(processed)
    {
      ghost var op := CronExecuted(id, token, nextRun, executedAt);
      OpKeepsInv(Abs(), op);
      ok := OwnsCron(id, token);
      if ok {
        crons := crons[id := crons[id].(lastRun := Some(executedAt), nextRun := Some(nextRun), token := None, until := None)];
      }
    }

    method RefreshCronClaim(id: int, token: int, until: int) returns (ok: bool)
      requires Valid()
      modifies this
      ensures Valid() && Abs() == Apply(old(Abs()), RefreshCron(id, token, until))
      ensures ok <==> id in old(crons) && old(crons)[id].token == Some(token)
      ensures crons == if ok then old(crons)[id := old(crons)[id].(until := Some(until))] else old(crons)
      ensures automations == old(automations) && hooks == old(hooks) && processed == old(processed)
    {
      ghost var op := RefreshCron(id, token, until);
      OpKeepsInv(Abs(), op);
      ok := OwnsCron(id, token);
      if ok {
        crons := crons[id := crons[id].(until := Some(until))];
      }
    }

    method ReleaseCronClaim(id: int, token: int) returns (ok: bool)
      requires Valid()
      modifies this
      ensures Valid() && Abs() == Apply(old(Abs()), ReleaseCron(id, token))
      ensures ok <==> id in old(crons) && old(crons)[id].token == Some(token)
      ensures crons == if ok then old(crons)[id := old(crons)[id].(until := None, token := None)] else old(crons)
      ensures automations == old(automations) && hooks == old(hooks) && processed == old(processed)
    {
      ghost var op := ReleaseCron(id, token);
      OpKeepsInv(Abs(), op);
      ok := OwnsCron(id, token);
      if ok {
        crons := crons[id := crons[id].(until := None, token := None)];
      }
    }

    /** A processed event is refused before the trigger is looked at. */
    method ClaimWebhookEvent(id: int, at: int, hash: string, until: int, token: int, session: string) returns (ok: bool)
      requires Valid() && token !in used
      modifies this
      ensures Valid() && Abs() == Apply(old(Abs()), ClaimHook(id, at, hash, until, token, session))
      ensures ok <==> && id in old(hooks) && id in automations && automations[id].active && automations[id].kind == Webhook
                      && Event(id, hash) !in old(processed)
                      && (old(hooks)[id].event.None? || old(hooks)[id].until.None? || old(hooks)[id].until.value <= at)
      ensures hooks == if !ok then old(hooks) else old(hooks)[id := old(hooks)[id].(
                event := Some(hash), token := Some(token), until := Some(until), received := Some(at), session := Some(session), error := None)]
      ensures automations == old(automations) && crons == old(crons) && processed == old(processed)
    {
      ghost var op := ClaimHook(id, at, hash, until, token, session);
      OpKeepsInv(Abs(), op);
      ok := Event(id, hash) !in processed && id in hooks && IsLive(id, Webhook) && (hooks[id].event.None? || Passed(hooks[id].until, at));
      if ok {
        hooks := hooks[id := hooks[id].(event := Some(hash), token := Some(token), until := Some(until), received := Some(at),
                                        session := Some(session), error := None)];
        used := used + {token};
      }
    }

    /** Completes the claimed event and records it; `conflict` is the IntegrityError branch of the insert,
        which a serialised run never takes. */
    method CompleteWebhookEvent(id: int, hash: string, token: int, at: int) returns (ok: bool, conflict: bool)
      requires Valid()
      modifies this
      ensures Valid() && Abs() == Apply(old(Abs()), CompleteHook(id, hash, token, at))
      ensures ok <==> id in old(hooks) && old(hooks)[id].event == Some(hash) && old(hooks)[id].token == Some(token)
      ensures hooks == if !ok then old(hooks) else old(hooks)[id := old(hooks)[id].(
                lastEvent := Some(hash), succeeded := Some(at), error := None, event := None, token := None, until := None)]
      ensures processed == if ok then old(processed) + {Event(id, hash)} else old(processed)
      ensures automations == old(automations) && crons == old(crons)
      ensures !conflict && (ok ==> Event(id, hash) in processed && Event(id, hash) !in old(processed))
    {
      OpKeepsInv(Abs(), CompleteHook(id, hash, token, at));
      ok, conflict := OwnsHook(id, hash, token), false;
      if ok {
        hooks := hooks[id := hooks[id].(lastEvent := Some(hash), event := None, token := None, until := None,
                                        succeeded := Some(at), error := None)];
        conflict := Event(id, hash) in processed;
        processed := processed + {Event(id, hash)};
      }
    }

    method ReleaseWebhookEvent(id: int, hash: string, token: int, at: int, error: string) returns (ok: bool)
      requires Valid()
      modifies this
      ensures Valid() && Abs() == Apply(old(Abs()), ReleaseHook(id, hash, token, at, error))
      ensures ok <==> id in old(hooks) && old(hooks)[id].event == Some(hash) && old(hooks)[id].token == Some(token)
      ensures hooks == if !ok then old(hooks) else old(hooks)[id := old(hooks)[id].(
                failed := Some(at), error := Some(error), event := None, token := None, until := None)]
      ensures automations == old(automations) && crons == old(crons) && processed == old(processed)
    {
      ghost var op := ReleaseHook(id, hash, token, at, error);
      OpKeepsInv(Abs(), op);
      ok := OwnsHook(id, hash, token);
      if ok {
        hooks := hooks[id := hooks[id].(event := None, token := None, until := None, failed := Some(at), error := Some(error))];
      }
    }

    method MarkWebhookStarted(id: int, hash: string, token: int, at: int) returns (ok: bool)
      requires Valid()
      modifies this
      ensures Valid() && Abs() == Apply(old(Abs()), StartHook(id, hash, token, at))
      ensures ok <==> id in old(hooks) && old(hooks)[id].event == Some(hash) && old(hooks)[id].token == Some(token)
      ensures hooks == if ok then old(hooks)[id := old(hooks)[id].(started := Some(at))] else old(hooks)
      ensures automations == old(automations) && crons == old(crons) && processed == old(processed)
    {
      ghost var op := StartHook(id, hash, token, at);
      OpKeepsInv(Abs(), op);
      ok := OwnsHook(id, hash, token);
      if ok {
        hooks := hooks[id := hooks[id].(started := Some(at))];
      }
    }

    method RefreshWebhookClaim(id: int, hash: string, token: int, until: int) returns (ok: bool)
      requires Valid()
      modifies this
      ensures Valid() && Abs() == Apply(old(Abs()), RefreshHook(id, hash, token, until))
      ensures ok <==> id in old(hooks) && old(hooks)[id].event == Some(hash) && old(hooks)[id].token == Some(token)
      ensures hooks == if ok then old(hooks)[id := old(hooks)[id].(until := Some(until))] else old(hooks)
      ensures automations == old(automations) && crons == old(crons) && processed == old(processed)
    {
      ghost var op := RefreshHook(id, hash, token, until);
      OpKeepsInv(Abs(), op);
      ok := OwnsHook(id, hash, token);
      if ok {
        hooks := hooks[id := hooks[id].(until := Some(until))];
      }
    }
  }
}

/**
 * Second-factor enrolment and replay protection (src/lib/db-hub.ts): four conditional
 * UPDATEs on one user row, run in any order by concurrent logins and an administrator.
 */
module TwoFactor {
  import opened Sequences

  datatype Action = Require | Reset | Remove

  /** The columns of one user row that the protocol touches. */
  datatype Row = Row(
    required: bool,
    secret: Option<string>,
    activatedAt: Option<string>,
    lastStep: Option<int>,
    proposal: Option<string>,
    proposalExpires: Option<string>)

  /** One statement sent to the database, with the values its sender chose. */
  datatype Op =
    | Idle
    | Save(candidate: string, expires: string, previous: Option<string>)
    | Activate(proposed: string, step: int, now: string)
    | Use(usedStep: int)
    | Admin(action: Action)

  function Cleared(r: Row): Row {
    Row(r.required, None, None, None, None, None)
  }

  /** The WHERE clause: does the statement change the row? */
  predicate Accepts(r: Row, op: Op) {
    match op
    case Idle => true
    case Save(_, _, previous) => r.secret.None? && r.proposal == previous
    case Activate(proposed, _, _) => r.secret.None? && r.proposal == Some(proposed)
    case Use(step) => r.lastStep.None? || r.lastStep.value < step
    case Admin(_) => true
  }

  /** The row after the statement. */
  function Apply(r: Row, op: Op): Row {
    if !Accepts(r, op) then r
    else match op
      case Idle => r
      case Save(candidate, expires, _) => r.(proposal := Some(candidate), proposalExpires := Some(expires))
      case Activate(_, step, now) =>
        Row(r.required, r.proposal, Some(now), Some(step), None, None)
      case Use(step) => r.(lastStep := Some(step))
      case Admin(Require) => r.(required := true)
      case Admin(Reset) => Cleared(r)
      case Admin(Remove) => Cleared(r).(required := false)
  }

  /** The stored row, updated in place by the four functions of db-hub.ts. */
  class UserRow {
    var required: bool
    var secret: Option<string>
    var activatedAt: Option<string>
    var lastStep: Option<int>
    var proposal: Option<string>
    var proposalExpires: Option<string>

    ghost function View(): Row
      reads this
    {
      Row(required, secret, activatedAt, lastStep, proposal, proposalExpires)
    }

    method SaveProposal(candidate: string, expires: string, previous: Option<string>) returns (ok: bool)
      modifies this
      ensures ok <==> old(secret).None? && old(proposal) == previous
      ensures proposal == if ok then Some(candidate) else old(proposal)
      ensures proposalExpires == if ok then Some(expires) else old(proposalExpires)
      ensures unchanged(this`required, this`secret, this`activatedAt, this`lastStep)
      ensures ok == Accepts(old(View()), Save(candidate, expires, previous))
      ensures View() == Apply(old(View()), Save(candidate, expires, previous))
    {
      ok := secret.None? && proposal == previous;
      if ok {
        proposal := Some(candidate);
        proposalExpires := Some(expires);
      }
    }

    method ActivateSecret(proposed: string, step: int, now: string) returns (ok: bool)
      modifies this
      ensures ok <==> old(secret).None? && old(proposal) == Some(proposed)
      ensures ok ==> secret == Some(proposed) && activatedAt == Some(now) && lastStep == Some(step)
      ensures ok ==> proposal.None? && proposalExpires.None? && required == old(required)
      ensures !ok ==> View() == old(View())
      ensures ok == Accepts(old(View()), Activate(proposed, step, now))
      ensures View() == Apply(old(View()), Activate(proposed, step, now))
    {
      ok := secret.None? && proposal == Some(proposed);
      if ok {
        secret := proposal;
        activatedAt := Some(now);
        lastStep := Some(step);
        proposal := None;
        proposalExpires := None;
      }
    }

    method UseStep(step: int) returns (ok: bool)
      modifies this
      ensures ok <==> old(lastStep).None? || old(lastStep).value < step
      ensures lastStep == if ok then Some(step) else old(lastStep)
      ensures unchanged(this`required, this`secret, this`activatedAt, this`proposal, this`proposalExpires)
      ensures ok == Accepts(old(View()), Use(step))
      ensures View() == Apply(old(View()), Use(step))
    {
      ok := lastStep.None? || lastStep.value < step;
      if ok {
        lastStep := Some(step);
      }
    }

    method SetSecondCheck(action: Action)
      modifies this
      ensures required == (action.Require? || (action.Reset? && old(required)))
      ensures action.Require? ==>
                unchanged(this`secret, this`activatedAt, this`lastStep, this`proposal, this`proposalExpires)
      ensures !action.Require? ==>
                secret.None? && activatedAt.None? && lastStep.None? && proposal.None? && proposalExpires.None?
      ensures View() == Apply(old(View()), Admin(action))
    {
      match action {
        case Require =>
          required := true;
        case Reset =>
          secret, activatedAt, lastStep, proposal, proposalExpires := None, None, None, None, None;
        case Remove =>
          required := false;
          secret, activatedAt, lastStep, proposal, proposalExpires := None, None, None, None, None;
      }
    }
  }

  // ---------- runs: any statements, in any order ----------

  function RowAt(r: Row, ops: seq<Op>, n: nat): Row
    requires n <= |ops|
  {
    if n == 0 then r else Apply(RowAt(r, ops, n - 1), ops[n - 1])
  }

  predicate Succeeds(r: Row, ops: seq<Op>, i: nat)
    requires i < |ops|
  {
    Accepts(RowAt(r, ops, i), ops[i])
  }

  predicate Wipes(op: Op) {
    op.Admin? && !op.action.Require?
  }

  /** No reset or removal strictly between the two positions. */
  predicate NoWipe(ops: seq<Op>, i: nat, j: nat)
    requires j <= |ops|
  {
    forall k :: i < k < j ==> !Wipes(ops[k])
  }

  predicate AcceptsStep(r: Row, ops: seq<Op>, i: nat, step: int)
    requires i < |ops|
  {
    && Succeeds(r, ops, i)
    && ((ops[i].Activate? && ops[i].step == step) || (ops[i].Use? && ops[i].usedStep == step))
  }

  /** Nothing from position i up to, but excluding, position j removes the second factor. */
  predicate NoRemoval(ops: seq<Op>, i: nat, j: nat)
    requires j <= |ops|
  {
    forall k: nat :: i <= k < j ==> ops[k] != Admin(Remove)
  }

  /** In every run the second factor is required exactly when the last word on it was to require it. */
  lemma {:induction false} RequiredIff(r: Row, ops: seq<Op>, n: nat)
    requires n <= |ops|
    ensures RowAt(r, ops, n).required <==>
              || (exists i: nat :: i < n && ops[i] == Admin(Require) && NoRemoval(ops, i, n))
              || (r.required && NoRemoval(ops, 0, n))
  {
    if n > 0 {
      RequiredIff(r, ops, n - 1);
      if ops[n - 1] == Admin(Require) {
        assert NoRemoval(ops, n - 1, n);
      } else if ops[n - 1] != Admin(Remove) {
        forall i: nat | i < n ensures NoRemoval(ops, i, n) <==> NoRemoval(ops, i, n - 1) {
          assert NoRemoval(ops, i, n - 1) ==> forall k: nat :: i <= k < n ==> k == n - 1 || ops[k] != Admin(Remove);
        }
      }
    }
  }

  /** The dates belong to what they date. */
  predicate Dated(r: Row) {
    && (r.secret.Some? <==> r.activatedAt.Some?) && (r.proposal.Some? <==> r.proposalExpires.Some?)
    && (r.secret.Some? ==> r.lastStep.Some?)
  }

  lemma {:induction false} DatedAlways(r: Row, ops: seq<Op>, n: nat)
    requires n <= |ops| && Dated(r)
    ensures Dated(RowAt(r, ops, n))
  {
    if n > 0 {
      DatedAlways(r, ops, n - 1);
    }
  }

  /** What a successful activation writes stays until the next wipe: its secret with its time. */
  lemma {:induction false} ActivationStays(r: Row, ops: seq<Op>, i: nat, j: nat)
    requires i < j <= |ops| && NoWipe(ops, i, j) && ops[i].Activate? && Succeeds(r, ops, i)
    ensures var at := RowAt(r, ops, j);
            at.secret == Some(ops[i].proposed) && at.activatedAt == Some(ops[i].now)
            && at.proposal.None? && at.proposalExpires.None?
    decreases j
  {
    if j > i + 1 {
      ActivationStays(r, ops, i, j - 1);
      assert !Wipes(ops[j - 1]);
    }
  }

  /** What a successful save writes stays until the next wipe, activation or successful save. */
  lemma {:induction false} SaveStays(r: Row, ops: seq<Op>, i: nat, j: nat)
    requires i < j <= |ops| && NoWipe(ops, i, j) && ops[i].Save? && Succeeds(r, ops, i)
    requires forall k: nat :: i < k < j && (ops[k].Save? || ops[k].Activate?) ==> !Succeeds(r, ops, k)
    ensures var at := RowAt(r, ops, j);
            at.proposal == Some(ops[i].candidate) && at.proposalExpires == Some(ops[i].expires) && at.secret.None?
    decreases j
  {
    if j > i + 1 {
      SaveStays(r, ops, i, j - 1);
      assert !Wipes(ops[j - 1]);
    }
  }

  /** A wipe leaves nothing of the protocol. */
  lemma WipeForgets(r: Row, ops: seq<Op>, i: nat)
    requires i < |ops| && Wipes(ops[i])
    ensures var at := RowAt(r, ops, i + 1);
            at.secret.None? && at.activatedAt.None? && at.lastStep.None? && at.proposal.None?
            && at.proposalExpires.None?
  {
  }

  /** While no reset happens a confirmed secret stays, and its last step never goes back. */
  lemma {:induction false} EpochInvariant(r: Row, ops: seq<Op>, i: nat, j: nat, step: int)
    requires i < j <= |ops| && NoWipe(ops, i, j)
    requires RowAt(r, ops, i + 1).secret.Some?
    requires RowAt(r, ops, i + 1).lastStep.Some? && step <= RowAt(r, ops, i + 1).lastStep.value
    ensures RowAt(r, ops, j).secret == RowAt(r, ops, i + 1).secret
    ensures RowAt(r, ops, j).lastStep.Some? && step <= RowAt(r, ops, j).lastStep.value
    decreases j
  {
    if j > i + 1 {
      EpochInvariant(r, ops, i, j - 1, step);
      assert !Wipes(ops[j - 1]);
    }
  }

  /** A reset, a removal, or an activation that succeeds: what makes the row forget older steps. */
  predicate Forgets(r: Row, ops: seq<Op>, i: nat)
    requires i < |ops|
  {
    Wipes(ops[i]) || (ops[i].Activate? && Succeeds(r, ops, i))
  }

  /** No such statement from position i up to, but excluding, position j. */
  predicate Remembers(r: Row, ops: seq<Op>, i: nat, j: nat)
    requires j <= |ops|
  {
    forall k: nat :: i <= k < j ==> !Forgets(r, ops, k)
  }

  /**
   * The step is newer than every step accepted since the row last forgot, the one of the activation
   * included, and newer than the step the run started with when the row never forgot.
   */
  ghost predicate NewerThanRemembered(r: Row, ops: seq<Op>, n: nat, step: int)
    requires n <= |ops|
  {
    && (forall k: nat, p :: k < n && AcceptsStep(r, ops, k, p) && Remembers(r, ops, k + 1, n) ==> p < step)
    && (Remembers(r, ops, 0, n) && r.lastStep.Some? ==> r.lastStep.value < step)
  }

  /** One more statement, whatever it is. */
  lemma RemembersOneMore(r: Row, ops: seq<Op>, i: nat, n: nat)
    requires i <= n < |ops|
    ensures Remembers(r, ops, i, n + 1) <==> Remembers(r, ops, i, n) && !Forgets(r, ops, n)
  {
    hide Forgets;
    if Remembers(r, ops, i, n) && !Forgets(r, ops, n) {
      forall k: nat | i <= k < n + 1 ensures !Forgets(r, ops, k) {
        assert k == n || i <= k < n;
      }
    }
  }

  lemma RemembersNothing(r: Row, ops: seq<Op>, n: nat)
    requires n <= |ops|
    ensures Remembers(r, ops, n, n)
  {
  }

  /** What is remembered after one more statement. */
  lemma NewerAfterOneMore(r: Row, ops: seq<Op>, n: nat, step: int)
    requires n < |ops|
    ensures NewerThanRemembered(r, ops, n + 1, step) <==>
              && (forall p :: AcceptsStep(r, ops, n, p) ==> p < step)
              && (Forgets(r, ops, n) || NewerThanRemembered(r, ops, n, step))
  {
    hide Remembers, AcceptsStep, Forgets;
    RemembersNothing(r, ops, n + 1);
    forall k: nat | k <= n ensures Remembers(r, ops, k, n + 1) <==> Remembers(r, ops, k, n) && !Forgets(r, ops, n) {
      RemembersOneMore(r, ops, k, n);
    }
    RemembersOneMore(r, ops, 0, n);
    if NewerThanRemembered(r, ops, n + 1, step) {
      assert Remembers(r, ops, n + 1, n + 1);
      forall p | AcceptsStep(r, ops, n, p) ensures p < step {
      }
      if !Forgets(r, ops, n) {
        forall k: nat, p | k < n && AcceptsStep(r, ops, k, p) && Remembers(r, ops, k + 1, n) ensures p < step {
          assert Remembers(r, ops, k + 1, n + 1);
        }
      }
    } else if k: nat, p :| k < n + 1 && AcceptsStep(r, ops, k, p) && Remembers(r, ops, k + 1, n + 1) && step <= p {
      assert k < n ==> Remembers(r, ops, k + 1, n);
    }
  }

  /** What one statement does to the steps that are accepted behind it. */
  lemma AcceptedAfterOneMore(r: Row, ops: seq<Op>, n: nat, step: int)
    requires n < |ops|
    ensures Accepts(RowAt(r, ops, n + 1), Use(step)) <==>
              && (forall p :: AcceptsStep(r, ops, n, p) ==> p < step)
              && (Forgets(r, ops, n) || Accepts(RowAt(r, ops, n), Use(step)))
  {
    var op := ops[n];
    if Succeeds(r, ops, n) && op.Use? {
      assert AcceptsStep(r, ops, n, op.usedStep);
    } else if Succeeds(r, ops, n) && op.Activate? {
      assert AcceptsStep(r, ops, n, op.step);
    }
  }

  /**
   * Exactly when a code step is accepted, in any run: when it is newer than what the row remembers.
   * A step used before is accepted again in the same case and in no other.
   */
  lemma {:induction false} StepAcceptedIff(r: Row, ops: seq<Op>, n: nat, step: int)
    requires n <= |ops|
    ensures Accepts(RowAt(r, ops, n), Use(step)) <==> NewerThanRemembered(r, ops, n, step)
  {
    if n == 0 {
      RemembersNothing(r, ops, 0);
    } else {
      hide NewerThanRemembered;
      StepAcceptedIff(r, ops, n - 1, step);
      NewerAfterOneMore(r, ops, n - 1, step);
      AcceptedAfterOneMore(r, ops, n - 1, step);
    }
  }

  /**
   * Of two accepted steps the later is newer, whoever sends them and however the statements
   * interleave, unless the row forgot in between or the later is itself an activation.
   */
  lemma StepsIncreaseUntilForgotten(r: Row, ops: seq<Op>, i: nat, j: nat, p: int, q: int)
    requires i < j < |ops| && AcceptsStep(r, ops, i, p) && AcceptsStep(r, ops, j, q) && q <= p
    ensures exists k: nat :: i < k <= j && Forgets(r, ops, k)
  {
    StepAcceptedIff(r, ops, j, q);
    if !Forgets(r, ops, j) {
      assert !Remembers(r, ops, i + 1, j);
    }
  }

  /** Two confirmations in one run are separated by a reset: in one epoch at most one succeeds. */
  lemma OneActivationPerEpoch(r: Row, ops: seq<Op>, i: nat, j: nat)
    requires i < j < |ops| && ops[i].Activate? && ops[j].Activate?
    requires Succeeds(r, ops, i) && Succeeds(r, ops, j)
    ensures !NoWipe(ops, i, j)
  {
    if NoWipe(ops, i, j) {
      EpochInvariant(r, ops, i, j, ops[i].step);
    }
  }

  /** Across a reset the same step is accepted again: the guarantee is per epoch, not global. */
  lemma StepsRepeatAcrossReset(r: Row, p: int)
    requires r.secret.Some? && r.lastStep.Some? && r.lastStep.value < p
    ensures var ops := [Use(p), Admin(Reset), Use(p)];
            AcceptsStep(r, ops, 0, p) && AcceptsStep(r, ops, 2, p)
  {
    var ops := [Use(p), Admin(Reset), Use(p)];
    assert RowAt(r, ops, 1) == Apply(r, ops[0]);
    assert RowAt(r, ops, 2) == Apply(RowAt(r, ops, 1), ops[1]);
  }

  /**
   * A step used while no secret is confirmed does not bind the activation that follows:
   * the activation may carry an older step, which is why an epoch starts at the activation.
   */
  lemma ActivationMayGoBack(r: Row, p: int, q: int, s: string, now: string)
    requires r.secret.None? && r.lastStep.None? && r.proposal == Some(s) && q < p
    ensures var ops := [Use(p), Activate(s, q, now)];
            AcceptsStep(r, ops, 0, p) && AcceptsStep(r, ops, 1, q)
  {
    var ops := [Use(p), Activate(s, q, now)];
    assert RowAt(r, ops, 1) == Apply(r, ops[0]);
  }

  // ---------- racing proposals ----------

  /** Every saved proposal is a new ciphertext (`encrypt` draws a random IV). */
  predicate FreshSaves(r: Row, ops: seq<Op>) {
    && (forall k :: 0 <= k < |ops| && ops[k].Save? ==> r.proposal != Some(ops[k].candidate))
    && (forall k, l :: 0 <= k < l < |ops| && ops[k].Save? && ops[l].Save? ==> ops[k].candidate != ops[l].candidate)
  }

  /** A proposal in the row is the initial one or the value of an earlier save. */
  lemma {:induction false} ProposalOrigin(r: Row, ops: seq<Op>, n: nat)
    requires n <= |ops| && RowAt(r, ops, n).proposal.Some?
    ensures || RowAt(r, ops, n).proposal == r.proposal
            || exists k :: 0 <= k < n && ops[k].Save? && RowAt(r, ops, n).proposal == Some(ops[k].candidate)
  {
    if n > 0 {
      var before := RowAt(r, ops, n - 1);
      if RowAt(r, ops, n).proposal == before.proposal {
        ProposalOrigin(r, ops, n - 1);
      }
    }
  }

  /** After a save wins, any proposal in the row was written by it or by a later save. */
  lemma {:induction false} ProposalsAfterSave(r: Row, ops: seq<Op>, i: nat, j: nat)
    requires i < j <= |ops| && ops[i].Save? && Succeeds(r, ops, i)
    requires RowAt(r, ops, j).proposal.Some?
    ensures exists k :: i <= k < j && ops[k].Save? && RowAt(r, ops, j).proposal == Some(ops[k].candidate)
    decreases j
  {
    if j > i + 1 {
      if RowAt(r, ops, j).proposal == RowAt(r, ops, j - 1).proposal {
        ProposalsAfterSave(r, ops, i, j - 1);
      }
    }
  }

  /** Without a reset, a row that holds a proposal or a secret never becomes free of both. */
  lemma {:induction false} StaysEngaged(r: Row, ops: seq<Op>, i: nat, j: nat)
    requires i < j <= |ops| && NoWipe(ops, i, j)
    requires RowAt(r, ops, i + 1).secret.Some? || RowAt(r, ops, i + 1).proposal.Some?
    ensures RowAt(r, ops, j).secret.Some? || RowAt(r, ops, j).proposal.Some?
    decreases j
  {
    if j > i + 1 {
      StaysEngaged(r, ops, i, j - 1);
      assert !Wipes(ops[j - 1]);
    }
  }

  /**
   * Of any clients that read the same value and write different fresh ones, at most one save
   * succeeds; two can succeed only when both read an empty proposal and a reset lies between.
   */
  lemma OneSaveWins(r: Row, ops: seq<Op>, i: nat, j: nat)
    requires FreshSaves(r, ops) && i < j < |ops| && ops[i].Save? && ops[j].Save?
    requires ops[i].previous == ops[j].previous
    requires Succeeds(r, ops, i) && Succeeds(r, ops, j)
    ensures ops[i].previous.None? && !NoWipe(ops, i, j)
  {
    if ops[i].previous.Some? {
      ProposalOrigin(r, ops, i);
      ProposalsAfterSave(r, ops, i, j);
    } else if NoWipe(ops, i, j) {
      StaysEngaged(r, ops, i, j);
    }
  }

  /** With fresh ciphertexts, a given proposal is confirmed at most once in the whole run. */
  lemma OneConfirmationPerProposal(r: Row, ops: seq<Op>, i: nat, j: nat)
    requires FreshSaves(r, ops) && i < j < |ops| && ops[i].Activate? && ops[j].Activate?
    requires ops[i].proposed == ops[j].proposed
    requires Succeeds(r, ops, i)
    ensures !Succeeds(r, ops, j)
  {
    ProposalOrigin(r, ops, i);
    ProposalsAfterActivation(r, ops, i, j);
  }

  /** After a confirmation, any proposal in the row comes from a later save. */
  lemma {:induction false} ProposalsAfterActivation(r: Row, ops: seq<Op>, i: nat, j: nat)
    requires i < j <= |ops| && ops[i].Activate? && Succeeds(r, ops, i)
    ensures RowAt(r, ops, j).proposal.Some? ==>
              exists k :: i < k < j && ops[k].Save? && RowAt(r, ops, j).proposal == Some(ops[k].candidate)
    decreases j
  {
    if j > i + 1 {
      ProposalsAfterActivation(r, ops, i, j - 1);
    }
  }

  // ---------- the confirmed secret ----------

  /** A row never holds a confirmed secret and a proposal together. */
  predicate Exclusive(r: Row) {
    r.secret.None? || r.proposal.None?
  }

  lemma {:induction false} ExclusiveAlways(r: Row, ops: seq<Op>, n: nat)
    requires n <= |ops| && Exclusive(r)
    ensures Exclusive(RowAt(r, ops, n))
  {
    if n > 0 {
      ExclusiveAlways(r, ops, n - 1);
    }
  }

  /** The last proposal successfully saved, or the one the run started with. */
  function LastSaved(r: Row, ops: seq<Op>, n: nat): Option<string>
    requires n <= |ops|
  {
    if n == 0 then r.proposal
    else if ops[n - 1].Save? && Succeeds(r, ops, n - 1) then Some(ops[n - 1].candidate)
    else LastSaved(r, ops, n - 1)
  }

  /** From a row without a secret, the secret is always the last successfully saved proposal. */
  lemma {:induction false} SecretIsLastSaved(r: Row, ops: seq<Op>, n: nat)
    requires n <= |ops| && r.secret.None?
    ensures RowAt(r, ops, n).proposal.Some? ==> RowAt(r, ops, n).proposal == LastSaved(r, ops, n)
    ensures RowAt(r, ops, n).secret.Some? ==> RowAt(r, ops, n).secret == LastSaved(r, ops, n)
  {
    if n > 0 {
      SecretIsLastSaved(r, ops, n - 1);
    }
  }

  // ---------- clients that read the row and write later ----------

  /** What a login or an administrator does; a login writes from the row it read before. */
  datatype Event =
    | Reads(client: nat)
    | Proposes(client: nat, candidate: string, expires: string)
    | Confirms(client: nat, code: int, now: string)
    | EntersWith(client: nat, code: int)
    | Administers(action: Action)

  datatype System = System(row: Row, snapshots: map<nat, Row>)

  /** The statement an event sends, decided on the client's snapshot as in accesso-locale.ts. */
  function Sends(s: System, e: Event): Op {
    match e
    case Reads(_) => Idle
    case Administers(a) => Admin(a)
    case Proposes(c, candidate, expires) =>
      if c in s.snapshots && s.snapshots[c].required && s.snapshots[c].secret.None?
      then Save(candidate, expires, s.snapshots[c].proposal) else Idle
    case Confirms(c, step, now) =>
      if c in s.snapshots && s.snapshots[c].required && s.snapshots[c].secret.None? && s.snapshots[c].proposal.Some?
      then Activate(s.snapshots[c].proposal.value, step, now) else Idle
    case EntersWith(c, step) =>
      if c in s.snapshots && s.snapshots[c].required && s.snapshots[c].secret.Some?
         && (s.snapshots[c].lastStep.Some? ==> s.snapshots[c].lastStep.value < step)
      then Use(step) else Idle
  }

  function Advance(s: System, e: Event): System {
    System(
      Apply(s.row, Sends(s, e)),
      if e.Reads? then s.snapshots[e.client := s.row] else s.snapshots)
  }

  function SystemAt(s: System, events: seq<Event>, n: nat): System
    requires n <= |events|
  {
    if n == 0 then s else Advance(SystemAt(s, events, n - 1), events[n - 1])
  }

  function Sent(s: System, events: seq<Event>): seq<Op> {
    seq(|events|, i requires 0 <= i < |events| => Sends(SystemAt(s, events, i), events[i]))
  }

  /** Every interleaving of reading and writing clients is a run of statements. */
  lemma {:induction false} ClientsRunStatements(s: System, events: seq<Event>, n: nat)
    requires n <= |events|
    ensures SystemAt(s, events, n).row == RowAt(s.row, Sent(s, events), n)
  {
    hide Sends, Apply;
    if n > 0 {
      ClientsRunStatements(s, events, n - 1);
      assert Sent(s, events)[n - 1] == Sends(SystemAt(s, events, n - 1), events[n - 1]);
    }
  }

  /** The login of the event is let in: its statement changed the row, with that code step. */
  predicate LetsIn(s: System, events: seq<Event>, i: nat, step: int)
    requires i < |events|
  {
    var at := SystemAt(s, events, i);
    var op := Sends(at, events[i]);
    && Accepts(at.row, op)
    && ((op.Activate? && op.step == step) || (op.Use? && op.usedStep == step))
  }

  /**
   * Simultaneous logins: once a confirmation let a login in, no two logins enter with the
   * same code step until an administrator resets the row, whatever rows the clients had read.
   */
  lemma LoginsNeverShareAStep(s: System, events: seq<Event>, a: nat, i: nat, j: nat, p: int, q: int)
    requires a <= i < j < |events|
    requires Sends(SystemAt(s, events, a), events[a]).Activate?
    requires LetsIn(s, events, a, Sends(SystemAt(s, events, a), events[a]).step)
    requires NoReset(events, a, j)
    requires LetsIn(s, events, i, p) && LetsIn(s, events, j, q)
    ensures p < q
  {
    hide LetsIn, AcceptsStep, SystemAt, Sends, NoWipe;
    var ops := Sent(s, events);
    assert ops[a] == Sends(SystemAt(s, events, a), events[a]);
    LetInIsAccepted(s, events, a, ops[a].step);
    LetInIsAccepted(s, events, i, p);
    LetInIsAccepted(s, events, j, q);
    NoResetNoWipe(s, events, a, j);
    StepsIncreaseAfterActivation(s.row, ops, a, i, j, p, q);
  }

  /** No administrator resets or removes between the two events. */
  predicate NoReset(events: seq<Event>, i: nat, j: nat)
    requires j <= |events|
  {
    forall k: nat :: i < k < j ==> !(events[k].Administers? && !events[k].action.Require?)
  }

  /** The secret the code of a login is compared with: the one in the row the login read. */
  function ComparedWith(s: System, e: Event): Option<string>
    requires (e.EntersWith? || e.Confirms?) && e.client in s.snapshots
  {
    if e.EntersWith? then s.snapshots[e.client].secret else s.snapshots[e.client].proposal
  }

  /** Event i is the last reading of the client before event j. */
  predicate LastReading(events: seq<Event>, client: nat, i: nat, j: nat)
    requires j < |events|
  {
    && i < j && events[i] == Reads(client)
    && forall k: nat :: i < k < j ==> events[k] != Reads(client)
  }

  /** The snapshot of a client is the row at its last reading. */
  lemma {:induction false} SnapshotIsReading(s: System, events: seq<Event>, client: nat, i: nat, j: nat)
    requires i < j <= |events| && events[i] == Reads(client)
    requires forall k: nat :: i < k < j ==> events[k] != Reads(client)
    ensures var at := SystemAt(s, events, j);
            client in at.snapshots && at.snapshots[client] == SystemAt(s, events, i).row
    decreases j
  {
    hide Sends, Apply;
    if j > i + 1 {
      SnapshotIsReading(s, events, client, i, j - 1);
    }
  }

  /**
   * Exactly which logins are let in, by the row the client read and the row it finds when it writes: with
   * a code of the confirmed secret newer in both, or with the first code of a proposal that still stands.
   */
  lemma LetInIff(s: System, events: seq<Event>, i: nat, j: nat, step: int)
    requires j < |events| && (events[j].EntersWith? || events[j].Confirms?)
    requires LastReading(events, events[j].client, i, j)
    ensures var read, found := SystemAt(s, events, i).row, SystemAt(s, events, j).row;
            LetsIn(s, events, j, step) <==>
              && events[j].code == step && read.required
              && if events[j].EntersWith?
                 then read.secret.Some? && (read.lastStep.None? || read.lastStep.value < step)
                      && (found.lastStep.None? || found.lastStep.value < step)
                 else read.secret.None? && read.proposal.Some? && found.secret.None? && found.proposal == read.proposal
  {
    hide SystemAt;
    SnapshotIsReading(s, events, events[j].client, i, j);
  }

  /** A first step saves its proposal exactly when the row still holds what it read, and no secret. */
  lemma ProposesIff(s: System, events: seq<Event>, i: nat, j: nat)
    requires j < |events| && events[j].Proposes? && LastReading(events, events[j].client, i, j)
    ensures var read, found := SystemAt(s, events, i).row, SystemAt(s, events, j).row;
            var after := SystemAt(s, events, j + 1).row;
            if read.required && read.secret.None? && found.secret.None? && found.proposal == read.proposal
            then after == found.(proposal := Some(events[j].candidate), proposalExpires := Some(events[j].expires))
            else after == found
  {
    hide SystemAt;
    SnapshotIsReading(s, events, events[j].client, i, j);
    assert SystemAt(s, events, j + 1) == Advance(SystemAt(s, events, j), events[j]) by {
      SystemAdvances(s, events, j);
    }
  }

  lemma SystemAdvances(s: System, events: seq<Event>, j: nat)
    requires j < |events|
    ensures SystemAt(s, events, j + 1) == Advance(SystemAt(s, events, j), events[j])
  {
  }

  /** A secret in the row is the initial secret, the initial proposal or the value of an earlier save. */
  lemma {:induction false} SecretOrigin(r: Row, ops: seq<Op>, n: nat)
    requires n <= |ops| && RowAt(r, ops, n).secret.Some?
    ensures || RowAt(r, ops, n).secret == r.secret
            || RowAt(r, ops, n).secret == r.proposal
            || exists k :: 0 <= k < n && ops[k].Save? && RowAt(r, ops, n).secret == Some(ops[k].candidate)
  {
    if n > 0 {
      if RowAt(r, ops, n).secret == RowAt(r, ops, n - 1).secret {
        SecretOrigin(r, ops, n - 1);
      } else {
        ProposalOrigin(r, ops, n - 1);
      }
    }
  }

  /** Behind a wipe, what the row holds was saved after it. */
  lemma {:induction false} OnlyLaterSaves(r: Row, ops: seq<Op>, i: nat, j: nat)
    requires i < j <= |ops| && Wipes(ops[i])
    ensures RowAt(r, ops, j).proposal.Some? ==>
              exists k :: i < k < j && ops[k].Save? && RowAt(r, ops, j).proposal == Some(ops[k].candidate)
    ensures RowAt(r, ops, j).secret.Some? ==>
              exists k :: i < k < j && ops[k].Save? && RowAt(r, ops, j).secret == Some(ops[k].candidate)
    decreases j
  {
    if j > i + 1 {
      OnlyLaterSaves(r, ops, i, j - 1);
    }
  }

  /** Without a wipe a confirmed secret stays. */
  lemma {:induction false} SecretStays(r: Row, ops: seq<Op>, i: nat, j: nat)
    requires i <= j <= |ops| && RowAt(r, ops, i).secret.Some?
    requires forall k: nat :: i <= k < j ==> !Wipes(ops[k])
    ensures RowAt(r, ops, j).secret == RowAt(r, ops, i).secret
    decreases j
  {
    if j > i {
      SecretStays(r, ops, i, j - 1);
      assert !Wipes(ops[j - 1]);
    }
  }

  /** With fresh ciphertexts, a secret is still in the row exactly when nothing wiped it since. */
  lemma SecretStaysIff(r: Row, ops: seq<Op>, i: nat, j: nat)
    requires i <= j <= |ops| && RowAt(r, ops, i).secret.Some?
    requires FreshSaves(r, ops) && forall k :: 0 <= k < |ops| && ops[k].Save? ==> r.secret != Some(ops[k].candidate)
    ensures RowAt(r, ops, j).secret == RowAt(r, ops, i).secret <==> forall k: nat :: i <= k < j ==> !Wipes(ops[k])
  {
    if k: nat :| i <= k < j && Wipes(ops[k]) {
      SecretOrigin(r, ops, i);
      OnlyLaterSaves(r, ops, k, j);
    } else {
      SecretStays(r, ops, i, j);
    }
  }

  /**
   * A login that is let in compared its code with the secret now in the row exactly when it is the
   * confirmation, or when no administrator reset the row between its reading and its writing.
   */
  lemma LetInOnCurrentSecretIff(s: System, events: seq<Event>, i: nat, j: nat, step: int)
    requires j < |events| && (events[j].EntersWith? || events[j].Confirms?)
    requires LastReading(events, events[j].client, i, j) && LetsIn(s, events, j, step)
    requires FreshSaves(s.row, Sent(s, events))
    requires forall k :: 0 <= k < |events| && Sent(s, events)[k].Save? ==>
                           s.row.secret != Some(Sent(s, events)[k].candidate)
    ensures events[j].client in SystemAt(s, events, j).snapshots
    ensures SystemAt(s, events, j + 1).row.secret == ComparedWith(SystemAt(s, events, j), events[j])
            <==> events[j].Confirms? || NoReset(events, i, j)
  {
    var ops, client := Sent(s, events), events[j].client;
    SnapshotIsReading(s, events, client, i, j);
    if events[j].EntersWith? {
      ClientsRunStatements(s, events, i);
      ClientsRunStatements(s, events, j);
      SecretStaysIff(s.row, ops, i, j);
      ResetsAreWipes(s, events, i, j);
    }
  }

  /** From a reading on, the row is wiped exactly where an administrator resets it. */
  lemma ResetsAreWipes(s: System, events: seq<Event>, i: nat, j: nat)
    requires i < j <= |events| && events[i].Reads?
    ensures (forall k: nat :: i <= k < j ==> !Wipes(Sent(s, events)[k])) <==> NoReset(events, i, j)
  {
    hide SystemAt;
    var ops := Sent(s, events);
    forall k: nat | i <= k < j
      ensures Wipes(ops[k]) <==> events[k].Administers? && !events[k].action.Require?
    {
      assert ops[k] == Sends(SystemAt(s, events, k), events[k]);
    }
  }

  /** A login that is let in is a statement that accepts the step. */
  lemma LetInIsAccepted(s: System, events: seq<Event>, i: nat, step: int)
    requires i < |events| && LetsIn(s, events, i, step)
    ensures AcceptsStep(s.row, Sent(s, events), i, step)
  {
    hide SystemAt, Sends, Accepts, RowAt;
    ClientsRunStatements(s, events, i);
    assert Sent(s, events)[i] == Sends(SystemAt(s, events, i), events[i]);
  }

  /** Only an administrator's reset or removal wipes the row. */
  lemma NoResetNoWipe(s: System, events: seq<Event>, a: nat, j: nat)
    requires a < j < |events|
    requires NoReset(events, a, j)
    ensures NoWipe(Sent(s, events), a, j)
  {
    hide SystemAt;
    var ops := Sent(s, events);
    forall k | a < k < j ensures !Wipes(ops[k]) {
      assert ops[k] == Sends(SystemAt(s, events, k), events[k]);
    }
  }

  /** After an activation, in any run, two accepted steps come in increasing order until the next reset. */
  lemma StepsIncreaseAfterActivation(r: Row, ops: seq<Op>, a: nat, i: nat, j: nat, p: int, q: int)
    requires a <= i < j < |ops| && NoWipe(ops, a, j)
    requires ops[a].Activate? && AcceptsStep(r, ops, a, ops[a].step)
    requires AcceptsStep(r, ops, i, p) && AcceptsStep(r, ops, j, q)
    ensures p < q
  {
    hide AcceptsStep, RowAt;
    if q <= p {
      StepsIncreaseUntilForgotten(r, ops, i, j, p, q);
      var k: nat :| i < k <= j && Forgets(r, ops, k);
      assert !Wipes(ops[k]) by {
        AcceptedSucceeds(r, ops, j, q);
      }
      assert Succeeds(r, ops, a) by {
        AcceptedSucceeds(r, ops, a, ops[a].step);
      }
      OneActivationPerEpoch(r, ops, a, k);
    }
  }

  lemma AcceptedSucceeds(r: Row, ops: seq<Op>, i: nat, step: int)
    requires i < |ops| && AcceptsStep(r, ops, i, step)
    ensures Succeeds(r, ops, i) && !Wipes(ops[i])
  {
  }

  /** Racing first steps: of two clients that read the same proposal, at most one saves its own. */
  lemma RacingProposals(s: System, events: seq<Event>, i: nat, j: nat)
    requires i < j < |events| && events[i].Proposes? && events[j].Proposes?
    requires FreshSaves(s.row, Sent(s, events))
    requires var a := SystemAt(s, events, i); var b := SystemAt(s, events, j);
             && events[i].client in a.snapshots && events[j].client in b.snapshots
             && a.snapshots[events[i].client].proposal == b.snapshots[events[j].client].proposal
    requires SystemAt(s, events, i).snapshots[events[i].client].proposal.Some? || NoWipe(Sent(s, events), i, j)
    ensures var a := SystemAt(s, events, i); var b := SystemAt(s, events, j);
            var first := Sends(a, events[i]); var second := Sends(b, events[j]);
            !(first.Save? && Accepts(a.row, first) && second.Save? && Accepts(b.row, second))
  {
    var ops := Sent(s, events);
    ClientsRunStatements(s, events, i);
    ClientsRunStatements(s, events, j);
    if ops[i].Save? && ops[j].Save? && Succeeds(s.row, ops, i) && Succeeds(s.row, ops, j) {
      OneSaveWins(s.row, ops, i, j);
    }
  }
}

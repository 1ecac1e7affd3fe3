/**
 Customer updates. An update reads the row, checks the requested change against that snapshot, and then
 writes conditionally on the version number the client sent. Any number of updates of one customer may
 be between their read and their write.
 */
module Customers {
  import opened Options
  import opened CustomerColumns

  type Id = nat

  // ---------------------------------------------------------------- the KYC lifecycle

  datatype Kyc = NotStarted | Pending | InReview | Verified | Rejected | Expired

  /** The `ALLOWED` matrix. */
  function Allowed(from: Kyc): set<Kyc> {
    match from
    case NotStarted => {Pending, InReview, Verified, Rejected}
    case Pending => {NotStarted, InReview, Verified, Rejected, Expired}
    case InReview => {NotStarted, Pending, Verified, Rejected, Expired}
    case Verified => {InReview, Rejected, Expired}
    case Rejected => {NotStarted, Pending, InReview}
    case Expired => {NotStarted, Pending, InReview}
  }

  predicate IsKycTransitionAllowed(from: Kyc, to: Kyc) {
    from == to || to in Allowed(from)
  }

  predicate IsNegative(kyc: Kyc) {
    kyc == Rejected || kyc == Expired
  }

  predicate IsNeutral(kyc: Kyc) {
    kyc == NotStarted || kyc == Pending || kyc == InReview
  }

  /**
   The documented rules: a negative decision goes back to a neutral state first, a verified customer is never
   downgraded to NOT_STARTED or PENDING, and what was not started cannot expire. Every other change is legal.
   */
  lemma AllowedByTheRules(from: Kyc, to: Kyc)
    ensures IsKycTransitionAllowed(from, to) <==>
            from == to || ((IsNegative(from) ==> IsNeutral(to)) && (from == Verified ==> to != NotStarted && to != Pending)
                           && (from == NotStarted ==> to != Expired))
  {
  }

  predicate IsDecision(kyc: Kyc) {
    kyc == Verified || kyc == Rejected
  }

  // ---------------------------------------------------------------- rows and requests

  datatype Status = Active | Inactive | Closed

  datatype Row = Row(rowVersion: nat, kyc: Kyc, status: Status, columns: Columns, deleted: bool)

  /** A status or KYC status that is absent or null is `None`. */
  datatype UpdateDto = UpdateDto(rowVersion: nat, kyc: Option<Kyc>, status: Option<Status>, changes: Changes)

  datatype Refusal = NotFound | DuplicateEmail | IllegalKycTransition | IllegalStatusTransition | Conflict
                   | Unhandled // an exception no branch expects: 500, rolled back

  datatype Call =
    | Checked(dto: UpdateDto, existing: Row)
    | Refused(refusal: Refusal)
    | Committed(dto: UpdateDto, existing: Row)

  datatype AuditEntry = KycChange(from: Kyc, to: Kyc) | Updated | Deleted

  datatype State = State(row: Row, calls: map<Id, Call>, decisions: seq<Kyc>, audit: seq<AuditEntry>)

  datatype Action =
    // `emailTaken`: another live customer has that address, at the check and at the write
    | Begin(call: Id, dto: UpdateDto, emailTaken: bool)
    | Write(call: Id, emailTaken: bool)
    | SoftDelete

  function NextKyc(dto: UpdateDto, existing: Row): Kyc {
    dto.kyc.GetOr(existing.kyc)
  }

  function NextStatus(dto: UpdateDto, existing: Row): Status {
    dto.status.GetOr(existing.status)
  }

  /** The checks of an update, in the order the service makes them. */
  function Checks(dto: UpdateDto, existing: Row, emailTaken: bool): Call {
    if existing.deleted then Refused(NotFound)
    else if ChangesEmail(dto.changes, existing.columns) && emailTaken then Refused(DuplicateEmail)
    else if !IsKycTransitionAllowed(existing.kyc, NextKyc(dto, existing)) then Refused(IllegalKycTransition)
    else if existing.status == Closed && NextStatus(dto, existing) != Closed then Refused(IllegalStatusTransition)
    else if Throws(dto.changes) then Refused(Unhandled)
    else Checked(dto, existing)
  }

  /** What an update writes, from the request and the snapshot. */
  function Written(dto: UpdateDto, existing: Row, rowVersion: nat): Row
    requires !Throws(dto.changes)
  {
    Row(rowVersion, NextKyc(dto, existing), NextStatus(dto, existing), Merged(dto.changes, existing.columns), false)
  }

  predicate Matches(dto: UpdateDto, row: Row) {
    !row.deleted && row.rowVersion == dto.rowVersion
  }

  /** The unique index on the lower-case address of live customers. */
  predicate EmailClash(dto: UpdateDto, row: Row, emailTaken: bool) {
    emailTaken && ChangesEmail(dto.changes, row.columns)
  }

  predicate Enabled(s: State, a: Action) {
    match a
    case Begin(c, _, _) => c !in s.calls
    // the second half holds of every call that passed its checks
    case Write(c, _) => c in s.calls && s.calls[c].Checked? && !Throws(s.calls[c].dto.changes)
    case SoftDelete => true
  }

  function Next(s: State, a: Action): State
    requires Enabled(s, a)
  {
    match a
    case Begin(c, dto, taken) => s.(calls := s.calls[c := Checks(dto, s.row, taken)])
    case Write(c, taken) =>
      var dto, existing := s.calls[c].dto, s.calls[c].existing;
      if !Matches(dto, s.row) then s.(calls := s.calls[c := Refused(Conflict)])
      else if EmailClash(dto, s.row, taken) then s.(calls := s.calls[c := Refused(DuplicateEmail)])
      else
        var next := NextKyc(dto, existing);
        State(Written(dto, existing, s.row.rowVersion + 1), s.calls[c := Committed(dto, existing)],
              if next != existing.kyc && IsDecision(next) then s.decisions + [next] else s.decisions,
              if next != existing.kyc then s.audit + [KycChange(existing.kyc, next)] + [Updated] else s.audit + [Updated])
    case SoftDelete =>
      if s.row.deleted then s
      else s.(row := s.row.(deleted := true, rowVersion := s.row.rowVersion + 1), audit := s.audit + [Deleted])
  }

  class CustomersService {
    var row: Row
    var calls: map<Id, Call>
    var decisions: seq<Kyc>
    var audit: seq<AuditEntry>

    ghost function Snapshot(): State reads this {
      State(row, calls, decisions, audit)
    }

    constructor (row: Row)
      ensures Snapshot() == State(row, map[], [], [])
    {
      this.row, calls, decisions, audit := row, map[], [], [];
    }

    /** `update` up to its write: read the row and make every check on what was read. */
    method UpdateChecks(call: Id, dto: UpdateDto, emailTaken: bool)
      requires call !in calls
      modifies `calls
      ensures Snapshot() == Next(old(Snapshot()), Begin(call, dto, emailTaken))
    {
      if row.deleted {
        calls := calls[call := Refused(NotFound)];
        return;
      }
      var existing := row;
      if dto.changes.email.Given? && dto.changes.email.value.lower != existing.columns.email.lower {
        if emailTaken {
          calls := calls[call := Refused(DuplicateEmail)];
          return;
        }
      }
      var nextKyc := dto.kyc.GetOr(existing.kyc);
      if nextKyc != existing.kyc && nextKyc !in Allowed(existing.kyc) {
        calls := calls[call := Refused(IllegalKycTransition)];
        return;
      }
      if existing.status == Closed && dto.status.GetOr(existing.status) != Closed {
        calls := calls[call := Refused(IllegalStatusTransition)];
        return;
      }
      if dto.changes.fullName.Null? || dto.changes.phone.Null? || dto.changes.address.Null? {
        calls := calls[call := Refused(Unhandled)];
        return;
      }
      calls := calls[call := Checked(dto, existing)];
    }

    /** The conditional write with its decision row and audit entries, one commit. */
    method UpdateWrite(call: Id, emailTaken: bool) returns (count: nat)
      requires Enabled(Snapshot(), Write(call, emailTaken))
      modifies this
      ensures Snapshot() == Next(old(Snapshot()), Write(call, emailTaken))
      ensures count == if calls[call].Committed? then 1 else 0
    {
      var dto, existing := calls[call].dto, calls[call].existing;
      if row.deleted || row.rowVersion != dto.rowVersion {
        calls := calls[call := Refused(Conflict)];
        return 0;
      }
      if EmailClash(dto, row, emailTaken) {
        calls := calls[call := Refused(DuplicateEmail)];
        return 0;
      }
      var nextKyc := dto.kyc.GetOr(existing.kyc);
      row := Row(row.rowVersion + 1, nextKyc, dto.status.GetOr(existing.status), Merged(dto.changes, existing.columns), false);
      if nextKyc != existing.kyc {
        if nextKyc == Verified || nextKyc == Rejected {
          decisions := decisions + [nextKyc];
        }
        audit := audit + [KycChange(existing.kyc, nextKyc)];
      }
      audit := audit + [Updated];
      calls := calls[call := Committed(dto, existing)];
      return 1;
    }

    method Delete() returns (found: bool)
      modifies `row, `audit
      ensures Snapshot() == Next(old(Snapshot()), SoftDelete)
      ensures found == !old(row).deleted
    {
      found := !row.deleted;
      if found {
        row := row.(deleted := true, rowVersion := row.rowVersion + 1);
        audit := audit + [Deleted];
      }
    }
  }

  // ---------------------------------------------------------------- runs

  ghost predicate IsRun(states: seq<State>, actions: seq<Action>) {
    && |states| == |actions| + 1 && states[0] == State(states[0].row, map[], [], [])
    && forall i :: 0 <= i < |actions| ==> Enabled(states[i], actions[i]) && states[i + 1] == Next(states[i], actions[i])
  }

  /** The write of step `n` goes through. */
  predicate Commits(states: seq<State>, actions: seq<Action>, n: nat)
    requires n < |actions| && n < |states|
  {
    && actions[n].Write? && actions[n].call in states[n].calls && states[n].calls[actions[n].call].Checked?
    && Matches(states[n].calls[actions[n].call].dto, states[n].row)
    && !EmailClash(states[n].calls[actions[n].call].dto, states[n].row, actions[n].emailTaken)
  }

  ghost predicate SeenBy(states: seq<State>, n: nat, version: nat) {
    exists m :: 0 <= m <= n && m < |states| && states[m].row.rowVersion == version
  }

  /** Every client sends a version it could have read: one the row had at or before the update began. */
  ghost predicate Honest(states: seq<State>, actions: seq<Action>) {
    forall n :: 0 <= n < |actions| && n < |states| && actions[n].Begin? ==> SeenBy(states, n, actions[n].dto.rowVersion)
  }

  /** Versions never fall and a version names one row content. */
  predicate SnapshotsPast(s: State) {
    forall c :: c in s.calls && s.calls[c].Checked? ==> PastOf(s.calls[c].existing, s.row)
  }

  predicate PastOf(existing: Row, row: Row) {
    !existing.deleted && existing.rowVersion <= row.rowVersion && (existing.rowVersion == row.rowVersion ==> existing == row)
  }

  predicate PassedChecks(s: State) {
    forall c :: c in s.calls && s.calls[c].Checked? ==>
      Checks(s.calls[c].dto, s.calls[c].existing, false) == s.calls[c]
  }

  lemma {:induction false} RunInv(states: seq<State>, actions: seq<Action>, n: nat)
    requires IsRun(states, actions) && n <= |actions|
    ensures SnapshotsPast(states[n]) && PassedChecks(states[n])
    ensures forall c :: c in states[n].calls && states[n].calls[c].Checked? ==> Enabled(states[n], Write(c, false))
  {
    if n > 0 {
      RunInv(states, actions, n - 1);
      var s, a := states[n - 1], actions[n - 1];
      assert states[n] == Next(s, a);
    }
  }

  lemma {:induction false} VersionsRise(states: seq<State>, actions: seq<Action>, m: nat, n: nat)
    requires IsRun(states, actions) && m <= n <= |actions|
    ensures states[m].row.rowVersion <= states[n].row.rowVersion
  {
    if m < n {
      VersionsRise(states, actions, m, n - 1);
      assert states[n] == Next(states[n - 1], actions[n - 1]);
    }
  }

  lemma {:induction false} HonestVersions(states: seq<State>, actions: seq<Action>, n: nat)
    requires IsRun(states, actions) && Honest(states, actions) && n <= |actions|
    ensures forall c :: c in states[n].calls && states[n].calls[c].Checked? ==>
      states[n].calls[c].dto.rowVersion <= states[n].calls[c].existing.rowVersion
  {
    if n > 0 {
      HonestVersions(states, actions, n - 1);
      var s, a := states[n - 1], actions[n - 1];
      assert states[n] == Next(s, a);
      if a.Begin? {
        assert SeenBy(states, n - 1, a.dto.rowVersion);
        var m :| 0 <= m <= n - 1 && m < |states| && states[m].row.rowVersion == a.dto.rowVersion;
        VersionsRise(states, actions, m, n - 1);
      }
    }
  }

  /**
   A committed update was checked against the row it overwrote exactly when the client's version was not from
   the future.
   */
  lemma CheckedWhatItOverwrites(states: seq<State>, actions: seq<Action>, n: nat)
    requires IsRun(states, actions) && n < |actions| && Commits(states, actions, n)
    ensures var call := states[n].calls[actions[n].call];
            call.existing == states[n].row <==> call.dto.rowVersion <= call.existing.rowVersion
  {
    RunInv(states, actions, n);
  }

  /** What one committed write may do to the row. */
  predicate SoundWrite(before: Row, dto: UpdateDto, after: Row) {
    && !before.deleted && !after.deleted
    && after.rowVersion == before.rowVersion + 1 && before.rowVersion == dto.rowVersion
    && IsKycTransitionAllowed(before.kyc, after.kyc) && after.kyc == dto.kyc.GetOr(before.kyc)
    && (before.status == Closed ==> after.status == Closed) && after.status == dto.status.GetOr(before.status)
    && !Throws(dto.changes) && after.columns == Merged(dto.changes, before.columns)
  }

  /**
   In honest runs a committed write keeps every column its request does not name exactly when the address it
   sends, if any, names every address column the row had a value in, and stores what it names exactly when it
   sends no null date of birth.
   */
  lemma CommittedColumnsIff(states: seq<State>, actions: seq<Action>, n: nat)
    requires IsRun(states, actions) && Honest(states, actions) && n < |actions| && Commits(states, actions, n)
    ensures var changes := states[n].calls[actions[n].call].dto.changes;
            var before, after := states[n].row.columns, states[n + 1].row.columns;
            && (KeepsUnnamed(changes, before, after) <==> AddressComplete(changes, before))
            && (StoresNamed(changes, after) <==> !changes.dateOfBirth.Null?)
  {
    HonestWritesAreSound(states, actions, n);
    KeepsUnnamedIff(states[n].calls[actions[n].call].dto.changes, states[n].row.columns);
    StoresNamedIff(states[n].calls[actions[n].call].dto.changes, states[n].row.columns);
  }

  /**
   With honest versions every committed write is legal for the very row it changes, and its columns are the
   request merged into that row, not into an older one.
   */
  lemma HonestWritesAreSound(states: seq<State>, actions: seq<Action>, n: nat)
    requires IsRun(states, actions) && Honest(states, actions) && n < |actions| && Commits(states, actions, n)
    ensures SoundWrite(states[n].row, states[n].calls[actions[n].call].dto, states[n + 1].row)
  {
    RunInv(states, actions, n);
    HonestVersions(states, actions, n);
    CheckedWhatItOverwrites(states, actions, n);
  }

  /**
   An update sent with the version it reads back is refused at its write exactly when someone else changed the
   row in between.
   */
  lemma ConflictIff(states: seq<State>, actions: seq<Action>, n: nat)
    requires IsRun(states, actions) && n < |actions| && actions[n].Write?
    requires states[n].calls[actions[n].call].dto.rowVersion == states[n].calls[actions[n].call].existing.rowVersion
    ensures states[n + 1].calls[actions[n].call] == Refused(Conflict)
        <==> states[n].row != states[n].calls[actions[n].call].existing
  {
    RunInv(states, actions, n);
  }

  /** Only commits and the delete change the row, and each by one version. */
  lemma StepsByOne(states: seq<State>, actions: seq<Action>, n: nat)
    requires IsRun(states, actions) && n < |actions|
    ensures states[n + 1].row != states[n].row <==> states[n + 1].row.rowVersion == states[n].row.rowVersion + 1
    ensures states[n + 1].row != states[n].row <==>
            Commits(states, actions, n) || (actions[n].SoftDelete? && !states[n].row.deleted)
  {
    assert Enabled(states[n], actions[n]);
  }

  /** A deleted row is frozen, in any run. */
  lemma {:induction false} DeletedIsFrozen(states: seq<State>, actions: seq<Action>, i: nat, j: nat)
    requires IsRun(states, actions) && i <= j <= |actions| && states[i].row.deleted
    ensures states[j].row == states[i].row && states[j].decisions == states[i].decisions && states[j].audit == states[i].audit
  {
    if i < j {
      DeletedIsFrozen(states, actions, i, j - 1);
      assert states[j] == Next(states[j - 1], actions[j - 1]);
    }
  }

  lemma HonestStep(states: seq<State>, actions: seq<Action>, n: nat)
    requires IsRun(states, actions) && Honest(states, actions) && n < |actions|
    ensures IsKycTransitionAllowed(states[n].row.kyc, states[n + 1].row.kyc)
    ensures states[n].row.status == Closed ==> states[n + 1].row.status == Closed
  {
    if Commits(states, actions, n) {
      HonestWritesAreSound(states, actions, n);
    } else {
      assert states[n + 1] == Next(states[n], actions[n]);
    }
  }

  lemma {:induction false} ClosedIsAbsorbing(states: seq<State>, actions: seq<Action>, i: nat, j: nat)
    requires IsRun(states, actions) && Honest(states, actions) && i <= j <= |actions|
    requires states[i].row.status == Closed
    ensures states[j].row.status == Closed
  {
    if i < j {
      ClosedIsAbsorbing(states, actions, i, j - 1);
      HonestStep(states, actions, j - 1);
    }
  }

  /**
   Leaving `inside` for anything beyond `gate` takes a state in `gate`, when the matrix lets `inside` go no
   further.
   */
  lemma {:induction false} MustPassThrough(states: seq<State>, actions: seq<Action>, i: nat, j: nat,
                                           inside: set<Kyc>, gate: set<Kyc>)
    returns (k: nat)
    requires IsRun(states, actions) && Honest(states, actions) && i <= j <= |actions|
    requires forall from, to :: from in inside && IsKycTransitionAllowed(from, to) ==> to in inside + gate
    requires states[i].row.kyc in inside && states[j].row.kyc !in inside
    ensures i < k <= j && states[k].row.kyc in gate
  {
    HonestStep(states, actions, j - 1);
    if states[j - 1].row.kyc in inside {
      k := j;
    } else {
      k := MustPassThrough(states, actions, i, j - 1, inside, gate);
    }
  }

  /**
   A rejected or expired customer becomes verified only through a neutral state, and a verified one is
   downgraded only through a later decision or review.
   */
  lemma ReviewComesBetween(states: seq<State>, actions: seq<Action>, i: nat, j: nat) returns (k: nat)
    requires IsRun(states, actions) && Honest(states, actions) && i <= j <= |actions|
    requires (states[i].row.kyc in {Rejected, Expired} && states[j].row.kyc == Verified)
          || (states[i].row.kyc == Verified && states[j].row.kyc in {NotStarted, Pending})
    ensures i < k < j
    ensures states[j].row.kyc == Verified ==> states[k].row.kyc in {NotStarted, Pending, InReview}
    ensures states[j].row.kyc != Verified ==> states[k].row.kyc in {InReview, Rejected, Expired}
  {
    if states[j].row.kyc == Verified {
      k := MustPassThrough(states, actions, i, j, {Rejected, Expired}, {NotStarted, Pending, InReview});
    } else {
      k := MustPassThrough(states, actions, i, j, {Verified}, {InReview, Rejected, Expired});
    }
  }

  /**
   The newest decision row says what the customer row says, once the customer has left a start that was no
   decision.
   */
  lemma {:induction false} NewestDecisionAgrees(states: seq<State>, actions: seq<Action>, n: nat)
    requires IsRun(states, actions) && Honest(states, actions) && n <= |actions| && !IsDecision(states[0].row.kyc)
    ensures IsDecision(states[n].row.kyc) ==>
      |states[n].decisions| > 0 && states[n].decisions[|states[n].decisions| - 1] == states[n].row.kyc
  {
    if n > 0 {
      NewestDecisionAgrees(states, actions, n - 1);
      if Commits(states, actions, n - 1) {
        HonestWritesAreSound(states, actions, n - 1);
        HonestVersions(states, actions, n - 1);
        CheckedWhatItOverwrites(states, actions, n - 1);
      }
      assert states[n] == Next(states[n - 1], actions[n - 1]);
    }
  }

  /** Follows the recorded KYC edges from `kyc`; `None` when one does not start where the last one ended. */
  function Walk(kyc: Kyc, audit: seq<AuditEntry>): Option<Kyc> {
    if audit == [] then Some(kyc)
    else
      var before := Walk(kyc, audit[..|audit| - 1]);
      match audit[|audit| - 1]
      case KycChange(from, to) => if before == Some(from) && to in Allowed(from) then Some(to) else None
      case _ => before
  }

  /**
   The audit trail's KYC changes are legal edges that lead, one after the other, from the first status to the
   current one.
   */
  lemma {:induction false} AuditTellsTheHistory(states: seq<State>, actions: seq<Action>, n: nat)
    requires IsRun(states, actions) && Honest(states, actions) && n <= |actions|
    ensures Walk(states[0].row.kyc, states[n].audit) == Some(states[n].row.kyc)
  {
    if n > 0 {
      var s, s' := states[n - 1], states[n];
      AuditTellsTheHistory(states, actions, n - 1);
      assert s' == Next(s, actions[n - 1]);
      if Commits(states, actions, n - 1) {
        HonestWritesAreSound(states, actions, n - 1);
        HonestVersions(states, actions, n - 1);
        CheckedWhatItOverwrites(states, actions, n - 1);
      }
      WalkOn(states[0].row.kyc, s.audit, s.row.kyc, s'.row.kyc);
    }
  }

  lemma WalkOn(start: Kyc, audit: seq<AuditEntry>, kyc: Kyc, next: Kyc)
    requires Walk(start, audit) == Some(kyc)
    ensures Walk(start, audit + [Updated]) == Walk(start, audit + [Deleted]) == Some(kyc)
    ensures next in Allowed(kyc) ==> Walk(start, audit + [KycChange(kyc, next)] + [Updated]) == Some(next)
  {
    assert (audit + [Updated])[..|audit|] == audit && (audit + [Deleted])[..|audit|] == audit;
    var edge := audit + [KycChange(kyc, next)];
    assert edge[..|audit|] == audit && (edge + [Updated])[..|edge|] == edge;
  }

  /**
   A client that guesses the next version commits an edge the matrix forbids: REJECTED to VERIFIED with no
   review between.
   */
  lemma FutureVersionSkipsReview() returns (states: seq<State>, actions: seq<Action>)
    ensures IsRun(states, actions) && |actions| == 4
    ensures states[3].row.kyc == Rejected && states[4].row.kyc == Verified
    ensures !IsKycTransitionAllowed(states[3].row.kyc, states[4].row.kyc)
  {
    var verify, reject := UpdateDto(1, Some(Verified), None, NO_CHANGES), UpdateDto(0, Some(Rejected), None, NO_CHANGES);
    actions := [Begin(1, verify, false), Begin(2, reject, false), Write(2, false), Write(1, false)];
    var columns := Columns("", Email("", ""), None, None, None, None, None, None, false);
    var s0 := State(Row(0, InReview, Active, columns, false), map[], [], []);
    var s1 := Next(s0, actions[0]);
    var s2 := Next(s1, actions[1]);
    var s3 := Next(s2, actions[2]);
    states := [s0, s1, s2, s3, Next(s3, actions[3])];
  }

  // ---------------------------------------------------------------- what each step does, and when

  /** What an update asks of the row it reads; a change it does not name is not one. */
  predicate Acceptable(dto: UpdateDto, row: Row, emailTaken: bool) {
    && !row.deleted
    && !(emailTaken && dto.changes.email.Given? && dto.changes.email.value.lower != row.columns.email.lower)
    && (dto.kyc.Some? ==> IsKycTransitionAllowed(row.kyc, dto.kyc.value))
    && (row.status == Closed && dto.status.Some? ==> dto.status.value == Closed)
    && !dto.changes.fullName.Null? && !dto.changes.phone.Null? && !dto.changes.address.Null?
  }

  /** An update passes its checks exactly when it is acceptable; otherwise it ends, and the row stays either way. */
  lemma PassesIff(s: State, c: Id, dto: UpdateDto, emailTaken: bool)
    requires Enabled(s, Begin(c, dto, emailTaken))
    ensures var s' := Next(s, Begin(c, dto, emailTaken));
            && s'.row == s.row && s'.decisions == s.decisions && s'.audit == s.audit
            && (s'.calls[c].Checked? <==> Acceptable(dto, s.row, emailTaken))
            && (s'.calls[c] == Checked(dto, s.row) || s'.calls[c].Refused?)
  {
  }

  /** The refusals, each with its cause. */
  lemma RefusedBecause(s: State, c: Id, dto: UpdateDto, emailTaken: bool)
    requires Enabled(s, Begin(c, dto, emailTaken)) && Next(s, Begin(c, dto, emailTaken)).calls[c].Refused?
    ensures match Next(s, Begin(c, dto, emailTaken)).calls[c].refusal
            case NotFound => s.row.deleted
            case DuplicateEmail => emailTaken && dto.changes.email.Given?
                                   && dto.changes.email.value.lower != s.row.columns.email.lower
            case IllegalKycTransition => dto.kyc.Some? && !IsKycTransitionAllowed(s.row.kyc, dto.kyc.value)
            case IllegalStatusTransition => s.row.status == Closed && dto.status.Some? && dto.status.value != Closed
            case Unhandled => dto.changes.fullName.Null? || dto.changes.phone.Null? || dto.changes.address.Null?
            case Conflict => false
  {
  }

  /**
   The write commits exactly when the row is live, has the version the client sent, and the address is free. It
   stores the request merged into the row that was read, one version up; a changed KYC status is recorded with its
   edge, and as a decision when it is one. Otherwise nothing changes.
   */
  lemma CommitsIff(s: State, c: Id, emailTaken: bool)
    requires Enabled(s, Write(c, emailTaken))
    ensures var dto, existing, s' := s.calls[c].dto, s.calls[c].existing, Next(s, Write(c, emailTaken));
            var clash := emailTaken && dto.changes.email.Given? && dto.changes.email.value.lower != s.row.columns.email.lower;
            if !s.row.deleted && s.row.rowVersion == dto.rowVersion && !clash then
              var kyc, edge := dto.kyc.GetOr(existing.kyc), existing.kyc != dto.kyc.GetOr(existing.kyc);
              && s'.calls[c] == Committed(dto, existing)
              && s'.row == Row(s.row.rowVersion + 1, kyc, dto.status.GetOr(existing.status),
                               Merged(dto.changes, existing.columns), false)
              && s'.decisions == s.decisions + (if edge && (kyc == Verified || kyc == Rejected) then [kyc] else [])
              && s'.audit == s.audit + (if edge then [KycChange(existing.kyc, kyc)] else []) + [Updated]
            else s'.row == s.row && s'.decisions == s.decisions && s'.audit == s.audit
                 && s'.calls[c] == Refused(if s.row.deleted || s.row.rowVersion != dto.rowVersion then Conflict
                                           else DuplicateEmail)
  {
  }

  /** A delete takes effect exactly once, as one more version, and is recorded; nothing else of the row changes. */
  lemma DeletesIff(s: State)
    requires Enabled(s, SoftDelete)
    ensures var s' := Next(s, SoftDelete);
            if s.row.deleted then s' == s
            else
              && s'.row.deleted && s'.row.rowVersion == s.row.rowVersion + 1 && s'.row.columns == s.row.columns
              && s'.row.kyc == s.row.kyc && s'.row.status == s.row.status
              && s'.audit == s.audit + [Deleted] && s'.decisions == s.decisions && s'.calls == s.calls
  {
  }
}

/**
  The checkpoint pipeline state (scripts/checkpoint_state.py): validation and legacy lift
  of the state document, and the `transition` and `update` commands over its file.

  Object keys are the constructors of `Field`; every other key is `Other`.
 */
module Checkpoint {
  import opened Text
  import opened Wrappers

  datatype Field =
    | Version | StatusField | OperationId | RecoveryAttempt | RecoveryClaim | ActiveFeature
    | ActivePr | ActiveBranch | ActivePrSha | ReviewRound | BuilderAttempt | LastError
    | LastReview | UpdatedAt
    | FeatureId | Attempt | ClaimedAt | Owner | StaleStatus
    | Other(name: string)

  datatype Json =
    | Null | Bool(b: bool) | Int(n: int) | Float(x: real) | Str(text: string)
    | Arr(items: seq<Json>) | Obj(fields: map<Field, Json>)

  type Document = map<Field, Json>

  datatype Status =
    | IDLE | PLANNING | BUILDING | PR_OPEN | REVIEWING | FIXING | MERGING | COMPLETED | BLOCKED | RECOVERING

  function ParseStatus(s: string): Option<Status> {
    if s == "IDLE" then Some(IDLE)
    else if s == "PLANNING" then Some(PLANNING)
    else if s == "BUILDING" then Some(BUILDING)
    else if s == "PR_OPEN" then Some(PR_OPEN)
    else if s == "REVIEWING" then Some(REVIEWING)
    else if s == "FIXING" then Some(FIXING)
    else if s == "MERGING" then Some(MERGING)
    else if s == "COMPLETED" then Some(COMPLETED)
    else if s == "BLOCKED" then Some(BLOCKED)
    else if s == "RECOVERING" then Some(RECOVERING)
    else None
  }

  function Allowed(from: Status): set<Status> {
    match from
    case IDLE => {PLANNING}
    case PLANNING => {BUILDING, BLOCKED, PLANNING, RECOVERING}
    case BUILDING => {PR_OPEN, BLOCKED, BUILDING, REVIEWING, RECOVERING}
    case PR_OPEN => {REVIEWING, BLOCKED, COMPLETED, MERGING, RECOVERING}
    case REVIEWING => {FIXING, MERGING, BLOCKED, REVIEWING, PR_OPEN, RECOVERING}
    case FIXING => {REVIEWING, BLOCKED, FIXING, BUILDING, RECOVERING}
    case MERGING => {COMPLETED, BLOCKED, MERGING, RECOVERING}
    case COMPLETED => {IDLE, PLANNING}
    case BLOCKED => {RECOVERING, IDLE}
    case RECOVERING => {BUILDING, REVIEWING, FIXING, IDLE, BLOCKED, RECOVERING}
  }

  const STALEABLE: set<Status> := {PLANNING, BUILDING, PR_OPEN, REVIEWING, FIXING, MERGING, RECOVERING}

  const V2_FIELDS: set<Field> := {
    Version, StatusField, ActiveFeature, ActivePr, ActiveBranch, ReviewRound, BuilderAttempt,
    LastError, LastReview, UpdatedAt}
  const V3_FIELDS: set<Field> := V2_FIELDS + {OperationId}
  const V4_FIELDS: set<Field> := V3_FIELDS + {RecoveryAttempt, RecoveryClaim, ActivePrSha}
  const CLAIM_FIELDS: set<Field> := {OperationId, FeatureId, Attempt, ClaimedAt, Owner, StaleStatus}

  // ---------------------------------------------------------------- validation

  /** Python's `==` between a JSON value and a number greater than one. */
  predicate IsNumber(j: Json, n: int) {
    (j.Int? && j.n == n) || (j.Float? && j.x == n as real)
  }

  predicate NullOrString(j: Json) { j.Null? || j.Str? }

  predicate IntAtLeast(j: Json, least: int) { j.Int? && j.n >= least }

  /** Python's `strip` also takes the four separators from U+001C on for white space. */
  predicate Strippable(s: string) { forall c :: c in s ==> IsWhitespace(c) || '\U{1C}' <= c <= '\U{1F}' }

  predicate ValidClaim(claim: Json) {
    claim.Null? ||
    (claim.Obj? && claim.fields.Keys == CLAIM_FIELDS
     && claim.fields[Owner].Str? && !Strippable(claim.fields[Owner].text)
     && claim.fields[ClaimedAt].Str? && !Strippable(claim.fields[ClaimedAt].text)
     && claim.fields[StaleStatus].Str?
     && (var stale := ParseStatus(claim.fields[StaleStatus].text); stale.Some? && stale.value in STALEABLE)
     && NullOrString(claim.fields[OperationId]) && NullOrString(claim.fields[FeatureId])
     && IntAtLeast(claim.fields[Attempt], 1))
  }

  /** A complete version 4 document; `isStamp` says which strings are ISO 8601 with a zone. */
  predicate ValidV4(d: Document, isStamp: string -> bool) {
    && d.Keys == V4_FIELDS
    && IsNumber(d[Version], 4)
    && d[StatusField].Str? && ParseStatus(d[StatusField].text).Some?
    && NullOrString(d[OperationId]) && NullOrString(d[ActiveFeature]) && NullOrString(d[ActiveBranch])
    && NullOrString(d[LastError]) && NullOrString(d[ActivePrSha])
    && d[LastReview].Str?
    && (d[ActivePr].Null? || IntAtLeast(d[ActivePr], 1))
    && IntAtLeast(d[ReviewRound], 0) && IntAtLeast(d[BuilderAttempt], 0) && IntAtLeast(d[RecoveryAttempt], 0)
    && ValidClaim(d[RecoveryClaim])
    && (d[UpdatedAt].Null? || (d[UpdatedAt].Str? && isStamp(d[UpdatedAt].text)))
  }

  predicate IsLegacy(d: Document) {
    Version in d && (IsNumber(d[Version], 2) || IsNumber(d[Version], 3))
  }

  function LegacyFields(d: Document): set<Field>
    requires IsLegacy(d)
  {
    if IsNumber(d[Version], 2) then V2_FIELDS else V3_FIELDS
  }

  /** Lifts a legacy document with exactly its version's fields. */
  function Migrate(d: Document): Option<Document> {
    if !IsLegacy(d) || d.Keys != LegacyFields(d) then None
    else Some(map[
      Version := Int(4),
      StatusField := d[StatusField],
      OperationId := if OperationId in d then d[OperationId] else Null,
      RecoveryAttempt := Int(0),
      RecoveryClaim := Null,
      ActiveFeature := d[ActiveFeature],
      ActivePr := d[ActivePr],
      ActiveBranch := d[ActiveBranch],
      ActivePrSha := Null,
      ReviewRound := d[ReviewRound],
      BuilderAttempt := d[BuilderAttempt],
      LastError := d[LastError],
      LastReview := d[LastReview],
      UpdatedAt := d[UpdatedAt]])
  }

  /** The validated document, lifted if it was a legacy one. */
  function Validate(j: Json, isStamp: string -> bool): Option<Document> {
    if !j.Obj? then None
    else if IsLegacy(j.fields) then
      var lifted := Migrate(j.fields);
      if lifted.Some? && ValidV4(lifted.value, isStamp) then lifted else None
    else if ValidV4(j.fields, isStamp) then Some(j.fields)
    else None
  }

  // ---------------------------------------------------------------- commands

  /** One `--set KEY=JSON`; the value is missing when its text is not valid JSON. */
  datatype Assignment = Assignment(key: Field, value: Option<Json>)

  datatype Command =
    | Transition(expectStatus: seq<string>, expectOperation: string, to: Option<string>, sets: seq<Assignment>)
    | Update(sets: seq<Assignment>)

  function Assigned(d: Document, sets: seq<Assignment>): (r: Option<Document>)
    ensures r.Some? ==> r.value.Keys == d.Keys
  {
    if sets == [] then Some(d)
    else
      var before := Assigned(d, sets[..|sets| - 1]);
      var last := sets[|sets| - 1];
      if before.None? || last.key !in before.value || last.value.None? then None
      else Some(before.value[last.key := last.value.value])
  }

  predicate SetsStamp(sets: seq<Assignment>) {
    exists i :: 0 <= i < |sets| && sets[i].key == UpdatedAt
  }

  function Stamped(d: Document, sets: seq<Assignment>, now: string): Document {
    if UpdatedAt in d && !SetsStamp(sets) then d[UpdatedAt := Str(now)] else d
  }

  /** The document a command writes, or none when it refuses. */
  function Written(file: Json, command: Command, now: string, isStamp: string -> bool): Option<Document> {
    var loaded := Validate(file, isStamp);
    if loaded.None? then None
    else
      var d := loaded.value;
      var status := d[StatusField].text;
      var changed := Assigned(d, command.sets);
      match command
      case Transition(expectStatus, expectOperation, to, sets) =>
        if expectStatus != [] && status !in expectStatus then None
        else if expectOperation != "" && d[OperationId] != Str(expectOperation) then None
        else if to.None? then None
        else if ParseStatus(to.value).None? || ParseStatus(to.value).value !in Allowed(ParseStatus(status).value)
        then None
        else if changed.None? then None
        else
          var next := Stamped(changed.value[StatusField := Str(to.value)], sets, now);
          if Validate(Obj(next), isStamp).Some? then Some(next) else None
      case Update(sets) =>
        if changed.None? || changed.value[StatusField] != d[StatusField] then None
        else
          var next := Stamped(changed.value, sets, now);
          if Validate(Obj(next), isStamp).Some? then Some(next) else None
  }

  function Step(file: Json, command: Command, now: string, isStamp: string -> bool): Json {
    var d := Written(file, command, now, isStamp);
    if d.Some? then Obj(d.value) else file
  }

  class StateFile {
    var file: Json
    const isStamp: string -> bool

    constructor (file: Json, isStamp: string -> bool)
      ensures this.file == file && this.isStamp == isStamp
    {
      this.file, this.isStamp := file, isStamp;
    }

    method ApplyAssignments(d: Document, sets: seq<Assignment>) returns (r: Option<Document>)
      ensures r == Assigned(d, sets)
    {
      var state := d;
      for i := 0 to |sets|
        invariant Assigned(d, sets[..i]) == Some(state)
      {
        assert sets[..i + 1][..i] == sets[..i];
        if sets[i].key !in state || sets[i].value.None? {
          AssignedStaysNone(d, sets, i + 1);
          return None;
        }
        state := state[sets[i].key := sets[i].value.value];
      }
      assert sets[..|sets|] == sets;
      r := Some(state);
    }

    /** Runs one command; a refused command leaves the file as it was. */
    method Execute(command: Command, now: string) returns (accepted: bool)
      modifies this
      ensures accepted == Written(old(file), command, now, isStamp).Some?
      ensures file == Step(old(file), command, now, isStamp)
    {
      var loaded := Validate(file, isStamp);
      if loaded.None? { return false; }
      var state := loaded.value;
      var status := state[StatusField];
      if command.Transition? {
        if command.expectStatus != [] && status.text !in command.expectStatus { return false; }
        if command.expectOperation != "" && state[OperationId] != Str(command.expectOperation) { return false; }
        if command.to.None? { return false; }
        var requested := ParseStatus(command.to.value);
        if requested.None? || requested.value !in Allowed(ParseStatus(status.text).value) { return false; }
      }
      var changed := ApplyAssignments(state, command.sets);
      if changed.None? { return false; }
      state := changed.value;
      if command.Transition? {
        state := state[StatusField := Str(command.to.value)];
      } else if state[StatusField] != status {
        return false;
      }
      state := Stamped(state, command.sets, now);
      if Validate(Obj(state), isStamp).None? { return false; }
      file := Obj(state);
      accepted := true;
    }
  }

  lemma {:induction false} AssignedStaysNone(d: Document, sets: seq<Assignment>, n: nat)
    requires n <= |sets| && Assigned(d, sets[..n]).None?
    ensures Assigned(d, sets).None?
    decreases |sets| - n
  {
    if n < |sets| {
      assert sets[..n + 1][..n] == sets[..n];
      AssignedStaysNone(d, sets, n + 1);
    } else {
      assert sets[..n] == sets;
    }
  }

  // ---------------------------------------------------------------- documents

  /** A document with the fields of version 4 cannot pass as a legacy one. */
  lemma FullDocumentsAreNotLifted(d: Document, isStamp: string -> bool)
    requires d.Keys == V4_FIELDS && Validate(Obj(d), isStamp).Some?
    ensures ValidV4(d, isStamp) && !IsLegacy(d) && Validate(Obj(d), isStamp) == Some(d)
  {
    assert RecoveryAttempt in d.Keys;
  }

  lemma WrittenFields(file: Json, command: Command, now: string, isStamp: string -> bool)
    requires Written(file, command, now, isStamp).Some?
    ensures Written(file, command, now, isStamp).value.Keys == V4_FIELDS
    ensures Validate(Obj(Written(file, command, now, isStamp).value), isStamp).Some?
  {
    var loaded := Validate(file, isStamp).value;
    assert loaded.Keys == V4_FIELDS;
    var changed := Assigned(loaded, command.sets).value;
    if command.Transition? {
      assert changed[StatusField := Str(command.to.value)].Keys == V4_FIELDS;
    }
  }

  /** Every document a command writes is a valid version 4 document that loads as itself. */
  lemma WrittenIsValid(file: Json, command: Command, now: string, isStamp: string -> bool)
    requires Written(file, command, now, isStamp).Some?
    ensures var d := Written(file, command, now, isStamp).value;
            ValidV4(d, isStamp) && !IsLegacy(d) && Validate(Obj(d), isStamp) == Some(d)
  {
    WrittenFields(file, command, now, isStamp);
    FullDocumentsAreNotLifted(Written(file, command, now, isStamp).value, isStamp);
  }

  /** The lift carries every other field over. */
  lemma LiftKeepsFields(d: Document, k: Field)
    requires Migrate(d).Some? && k in d && k != Version
    ensures k in Migrate(d).value && Migrate(d).value[k] == d[k]
  {
    assert k in V3_FIELDS;
  }

  /** The operation id of a document, null when it has none. */
  function OperationOf(d: Document): Json { if OperationId in d then d[OperationId] else Null }

  /** Two documents agree but for the version and the operation id, which they agree on too
      when a missing one counts as null. */
  predicate SameButForVersion(a: Document, b: Document) {
    a - {Version, OperationId} == b - {Version, OperationId} && OperationOf(a) == OperationOf(b)
  }

  lemma LiftableFields(d: Document)
    requires Migrate(d).Some?
    ensures d.Keys - {Version, OperationId} == V3_FIELDS - {Version, OperationId}
    ensures Migrate(d).value[OperationId] == OperationOf(d)
  {
  }

  lemma LiftOfSame(a: Document, b: Document)
    requires Migrate(a).Some? && Migrate(b).Some? && SameButForVersion(a, b)
    ensures Migrate(a) == Migrate(b)
  {
    LiftableFields(a);
    LiftableFields(b);
    forall k | k in V3_FIELDS - {Version, OperationId} ensures k in a && k in b && a[k] == b[k] {
      assert k in a.Keys - {Version, OperationId} && k in b.Keys - {Version, OperationId};
      assert (a - {Version, OperationId})[k] == (b - {Version, OperationId})[k];
    }
  }

  lemma SameOfLift(a: Document, b: Document)
    requires Migrate(a).Some? && Migrate(a) == Migrate(b)
    ensures SameButForVersion(a, b)
  {
    LiftableFields(a);
    LiftableFields(b);
    forall k | k in V3_FIELDS - {Version, OperationId} ensures k in a && k in b && a[k] == b[k] {
      assert k in a.Keys - {Version, OperationId} && k in b.Keys - {Version, OperationId};
      LiftKeepsFields(a, k);
      LiftKeepsFields(b, k);
    }
  }

  /** What the lift forgets: two documents have one lift exactly when they agree but for the
      version, a missing operation id counting as null. */
  lemma LiftIsOneIff(a: Document, b: Document)
    requires Migrate(a).Some? && Migrate(b).Some?
    ensures Migrate(a) == Migrate(b) <==> SameButForVersion(a, b)
  {
    if SameButForVersion(a, b) { LiftOfSame(a, b); }
    if Migrate(a) == Migrate(b) { SameOfLift(a, b); }
  }

  lemma SameVersionAside(a: Document, b: Document)
    requires Version in a && a.Keys == b.Keys
    ensures SameButForVersion(a, b) <==> a - {Version} == b - {Version}
  {
    assert a - {Version, OperationId} == (a - {Version}) - {OperationId};
    assert b - {Version, OperationId} == (b - {Version}) - {OperationId};
    if a - {Version} == b - {Version} {
      assert OperationId in a ==> (a - {Version})[OperationId] == (b - {Version})[OperationId];
    }
    if SameButForVersion(a, b) {
      forall k | k in a && k != Version && k != OperationId ensures a[k] == b[k] {
        assert (a - {Version, OperationId})[k] == (b - {Version, OperationId})[k];
      }
    }
  }

  /** So it loses nothing within one version: documents of one version have one lift exactly
      when they differ at most in how they spell the version number. */
  lemma LiftIsInjective(a: Document, b: Document)
    requires IsLegacy(a) && IsLegacy(b) && LegacyFields(a) == LegacyFields(b)
    requires Migrate(a).Some? && Migrate(b).Some?
    ensures Migrate(a) == Migrate(b) <==> a - {Version} == b - {Version}
  {
    LiftIsOneIff(a, b);
    SameVersionAside(a, b);
  }

  /** Across versions it does: a version 2 document has one lift with the version 3 documents
      that add a null operation id, and with no others. */
  lemma LiftForgetsTheVersion(d: Document, e: Document)
    requires Migrate(d).Some? && IsNumber(d[Version], 2) && Migrate(e).Some? && IsNumber(e[Version], 3)
    ensures Migrate(e) == Migrate(d) <==> e == d[Version := e[Version]][OperationId := Null]
    ensures Migrate(d[Version := Int(3)][OperationId := Null]).Some?
  {
    assert d[Version := Int(3)][OperationId := Null].Keys == V3_FIELDS;
    LiftIsOneIff(e, d);
    var f := d[Version := e[Version]][OperationId := Null];
    assert e.Keys == f.Keys == V3_FIELDS;
    if SameButForVersion(e, d) {
      forall k | k in e ensures e[k] == f[k] {
        if k != Version && k != OperationId {
          assert (e - {Version, OperationId})[k] == (d - {Version, OperationId})[k];
        }
      }
    }
    if e == f {
      assert e - {Version, OperationId} == d - {Version, OperationId};
    }
  }

  // ---------------------------------------------------------------- runs

  /** The status a stored file stands for, when it loads. */
  function StatusOf(file: Json, isStamp: string -> bool): Option<Status> {
    var d := Validate(file, isStamp);
    if d.None? then None else ParseStatus(d.value[StatusField].text)
  }

  /** A command moves the status along the table or leaves it; an update always leaves it. */
  lemma CommandFollowsTheTable(file: Json, command: Command, now: string, isStamp: string -> bool)
    requires StatusOf(file, isStamp).Some?
    ensures var after := Step(file, command, now, isStamp);
            && StatusOf(after, isStamp).Some?
            && (after == file || (after.Obj? && ValidV4(after.fields, isStamp)))
            && (|| StatusOf(after, isStamp) == StatusOf(file, isStamp)
                || (command.Transition?
                    && StatusOf(after, isStamp).value in Allowed(StatusOf(file, isStamp).value)))
  {
    if Written(file, command, now, isStamp).Some? {
      WrittenIsValid(file, command, now, isStamp);
    }
  }

  datatype Timed = Timed(command: Command, now: string)

  /** The statuses of the stored file before, between and after the commands of a run. */
  function Trail(file: Json, run: seq<Timed>, isStamp: string -> bool): (trail: seq<Status>)
    requires StatusOf(file, isStamp).Some?
    ensures |trail| == |run| + 1 && trail[0] == StatusOf(file, isStamp).value
    decreases |run|
  {
    var status := StatusOf(file, isStamp).value;
    if run == [] then [status]
    else
      CommandFollowsTheTable(file, run[0].command, run[0].now, isStamp);
      [status] + Trail(Step(file, run[0].command, run[0].now, isStamp), run[1..], isStamp)
  }

  predicate Follows(trail: seq<Status>) {
    forall i :: 0 <= i < |trail| - 1 ==> trail[i + 1] == trail[i] || trail[i + 1] in Allowed(trail[i])
  }

  lemma {:induction false} RunFollowsTheTable(file: Json, run: seq<Timed>, isStamp: string -> bool)
    requires StatusOf(file, isStamp).Some?
    ensures Follows(Trail(file, run, isStamp))
    decreases |run|
  {
    if run != [] {
      var next := Step(file, run[0].command, run[0].now, isStamp);
      CommandFollowsTheTable(file, run[0].command, run[0].now, isStamp);
      RunFollowsTheTable(next, run[1..], isStamp);
      var rest := Trail(next, run[1..], isStamp);
      FollowsCons(StatusOf(file, isStamp).value, rest);
    }
  }

  lemma FollowsCons(status: Status, rest: seq<Status>)
    requires rest != [] && Follows(rest) && (rest[0] == status || rest[0] in Allowed(status))
    ensures Follows([status] + rest)
  {
    var trail := [status] + rest;
    forall i | 0 <= i < |trail| - 1 ensures trail[i + 1] == trail[i] || trail[i + 1] in Allowed(trail[i]) {
      if i > 0 { assert trail[i] == rest[i - 1] && trail[i + 1] == rest[i]; }
    }
  }

  lemma {:induction false} ReviewBefore(trail: seq<Status>, n: nat) returns (i: nat)
    requires Follows(trail) && n < |trail| && trail[0] !in {MERGING, COMPLETED}
    requires trail[n] in {MERGING, COMPLETED}
    ensures i < n && trail[i] in {PR_OPEN, REVIEWING}
  {
    if trail[n - 1] in {PR_OPEN, REVIEWING} {
      i := n - 1;
    } else {
      assert trail[n - 1 + 1] == trail[n - 1] || trail[n - 1 + 1] in Allowed(trail[n - 1]);
      i := ReviewBefore(trail, n - 1);
    }
  }

  /** Every run that reaches COMPLETED or MERGING from any other status has passed through
      an open or reviewed pull request, and the merge stage is entered directly from one. */
  lemma CompletionPassesReview(file: Json, run: seq<Timed>, isStamp: string -> bool, n: nat)
    requires StatusOf(file, isStamp).Some? && n <= |run|
    ensures var trail := Trail(file, run, isStamp);
            && (trail[0] !in {MERGING, COMPLETED} && trail[n] in {MERGING, COMPLETED} ==>
                  exists i :: 0 <= i < n && trail[i] in {PR_OPEN, REVIEWING})
            && (n > 0 && trail[n] == MERGING && trail[n - 1] != MERGING ==>
                  trail[n - 1] in {PR_OPEN, REVIEWING})
  {
    hide Trail, StatusOf;
    var trail := Trail(file, run, isStamp);
    RunFollowsTheTable(file, run, isStamp);
    if trail[0] !in {MERGING, COMPLETED} && trail[n] in {MERGING, COMPLETED} {
      var i := ReviewBefore(trail, n);
    }
    if n > 0 {
      assert trail[n - 1 + 1] == trail[n - 1] || trail[n - 1 + 1] in Allowed(trail[n - 1]);
    }
  }

  const COMPLETE := Transition([], "", Some("COMPLETED"), [])

  function Completed(d: Document, now: string): Document {
    d[StatusField := Str("COMPLETED")][UpdatedAt := Str(now)]
  }

  lemma CompletedIsValid(d: Document, now: string, isStamp: string -> bool)
    requires ValidV4(d, isStamp) && isStamp(now)
    ensures ValidV4(Completed(d, now), isStamp)
    ensures Validate(Obj(Completed(d, now)), isStamp) == Some(Completed(d, now))
    ensures StatusOf(Obj(Completed(d, now)), isStamp) == Some(COMPLETED)
  {
    assert Completed(d, now).Keys == V4_FIELDS;
    assert ParseStatus("COMPLETED") == Some(COMPLETED);
  }

  lemma CompletedIsWritten(file: Json, now: string, isStamp: string -> bool)
    requires StatusOf(file, isStamp) == Some(MERGING)
    requires var next := Completed(Validate(file, isStamp).value, now);
             Validate(Obj(next), isStamp) == Some(next)
    ensures Written(file, COMPLETE, now, isStamp) == Some(Completed(Validate(file, isStamp).value, now))
  {
    hide ValidV4;
    assert ParseStatus("COMPLETED") == Some(COMPLETED);
    var d := Validate(file, isStamp).value;
    assert Assigned(d, []) == Some(d) && !SetsStamp([]);
    ValidatedHasStamp(file, isStamp);
  }

  lemma ValidatedHasStamp(file: Json, isStamp: string -> bool)
    requires Validate(file, isStamp).Some?
    ensures UpdatedAt in Validate(file, isStamp).value && ValidV4(Validate(file, isStamp).value, isStamp)
  {
  }

  /** From MERGING one command completes the run, so the exception is needed. */
  lemma MergingCompletesDirectly(file: Json, now: string, isStamp: string -> bool)
    requires StatusOf(file, isStamp) == Some(MERGING) && isStamp(now)
    ensures StatusOf(Step(file, COMPLETE, now, isStamp), isStamp) == Some(COMPLETED)
  {
    hide ValidV4, Migrate;
    ValidatedHasStamp(file, isStamp);
    CompletedIsValid(Validate(file, isStamp).value, now, isStamp);
    CompletedIsWritten(file, now, isStamp);
  }

  // ---------------------------------------------------------------- what is accepted

  function NameOf(s: Status): string {
    match s
    case IDLE => "IDLE"
    case PLANNING => "PLANNING"
    case BUILDING => "BUILDING"
    case PR_OPEN => "PR_OPEN"
    case REVIEWING => "REVIEWING"
    case FIXING => "FIXING"
    case MERGING => "MERGING"
    case COMPLETED => "COMPLETED"
    case BLOCKED => "BLOCKED"
    case RECOVERING => "RECOVERING"
  }

  lemma NamesAreParsed(s: Status)
    ensures ParseStatus(NameOf(s)) == Some(s)
  {
    match s
    case IDLE => assert |NameOf(s)| == 4;
    case PLANNING => assert |NameOf(s)| == 8;
    case BUILDING => assert |NameOf(s)| == 8 && NameOf(s)[0] == 'B' && NameOf(s) != "PLANNING";
    case PR_OPEN => assert |NameOf(s)| == 7;
    case REVIEWING => assert |NameOf(s)| == 9;
    case FIXING => assert |NameOf(s)| == 6;
    case MERGING => assert |NameOf(s)| == 7 && NameOf(s)[0] == 'M' && "PR_OPEN"[0] == 'P';
    case COMPLETED => assert |NameOf(s)| == 9 && NameOf(s)[0] == 'C' && "REVIEWING"[0] == 'R';
    case BLOCKED => assert |NameOf(s)| == 7 && NameOf(s)[0] == 'B' && "PR_OPEN"[0] == 'P' && "MERGING"[0] == 'M';
    case RECOVERING => assert |NameOf(s)| == 10;
  }

  /** And nothing else is parsed. */
  lemma OnlyNamesAreParsed(text: string)
    ensures ParseStatus(text).Some? ==> text == NameOf(ParseStatus(text).value)
  {
  }

  /** The statuses that lead to each status. */
  function Before(to: Status): set<Status> {
    match to
    case IDLE => {COMPLETED, BLOCKED, RECOVERING}
    case PLANNING => {IDLE, PLANNING, COMPLETED}
    case BUILDING => {PLANNING, BUILDING, FIXING, RECOVERING}
    case PR_OPEN => {BUILDING, REVIEWING}
    case REVIEWING => {BUILDING, PR_OPEN, REVIEWING, FIXING, RECOVERING}
    case FIXING => {REVIEWING, FIXING, RECOVERING}
    case MERGING => {PR_OPEN, REVIEWING, MERGING}
    case COMPLETED => {PR_OPEN, MERGING}
    case BLOCKED => {PLANNING, BUILDING, PR_OPEN, REVIEWING, FIXING, MERGING, RECOVERING}
    case RECOVERING => {PLANNING, BUILDING, PR_OPEN, REVIEWING, FIXING, MERGING, BLOCKED, RECOVERING}
  }

  lemma AllowedIff(from: Status, to: Status)
    ensures to in Allowed(from) <==> from in Before(to)
  {
  }

  /** A document that has been moved to another status at some time. */
  function Moved(d: Document, to: Status, now: string): Document {
    d[StatusField := Str(NameOf(to))][UpdatedAt := Str(now)]
  }

  lemma MovedIsValid(d: Document, to: Status, now: string, isStamp: string -> bool)
    requires ValidV4(d, isStamp) && isStamp(now)
    ensures Validate(Obj(Moved(d, to, now)), isStamp) == Some(Moved(d, to, now))
    ensures StatusOf(Obj(Moved(d, to, now)), isStamp) == Some(to)
  {
    assert Moved(d, to, now).Keys == V4_FIELDS;
    NamesAreParsed(to);
    hide ParseStatus;
  }

  lemma MoveIsWritten(file: Json, to: Status, now: string, isStamp: string -> bool)
    requires Validate(file, isStamp).Some?
    requires var next := Moved(Validate(file, isStamp).value, to, now);
             Validate(Obj(next), isStamp) == Some(next)
    ensures var d := Validate(file, isStamp).value;
            Written(file, Transition([], "", Some(NameOf(to)), []), now, isStamp) ==
            if ParseStatus(d[StatusField].text).value in Before(to) then Some(Moved(d, to, now)) else None
  {
    var d := Validate(file, isStamp).value;
    ValidatedHasStamp(file, isStamp);
    NamesAreParsed(to);
    AllowedIff(ParseStatus(d[StatusField].text).value, to);
    hide ValidV4, ParseStatus, Allowed, Before;
    assert Assigned(d, []) == Some(d) && !SetsStamp([]);
  }

  /** A transition without further conditions or changes is accepted exactly for the moves of
      the pipeline; it then changes the status and the time stamp and nothing else. */
  lemma TransitionAcceptedIff(file: Json, from: Status, to: Status, now: string, isStamp: string -> bool)
    requires StatusOf(file, isStamp) == Some(from) && isStamp(now)
    ensures var d := Validate(file, isStamp).value;
            Written(file, Transition([], "", Some(NameOf(to)), []), now, isStamp) ==
            if from in Before(to) then Some(Moved(d, to, now)) else None
  {
    hide ValidV4, Migrate, Before;
    ValidatedHasStamp(file, isStamp);
    MovedIsValid(Validate(file, isStamp).value, to, now, isStamp);
    MoveIsWritten(file, to, now, isStamp);
  }

  /** A condition on the status or the operation that does not hold refuses the command. */
  lemma ConditionsGuard(file: Json, command: Command, now: string, isStamp: string -> bool)
    requires StatusOf(file, isStamp).Some? && command.Transition?
    ensures command.expectStatus != [] && NameOf(StatusOf(file, isStamp).value) !in command.expectStatus ==>
              Written(file, command, now, isStamp).None?
    ensures command.expectOperation != ""
            && Validate(file, isStamp).value[OperationId] != Str(command.expectOperation) ==>
              Written(file, command, now, isStamp).None?
    ensures command.to.None? ==> Written(file, command, now, isStamp).None?
  {
    ValidatedHasStamp(file, isStamp);
    OnlyNamesAreParsed(Validate(file, isStamp).value[StatusField].text);
    hide ParseStatus, Allowed, Assigned;
  }

  /** An update without assignments is accepted, and renews the time stamp and nothing else. */
  lemma EmptyUpdateIsAccepted(file: Json, now: string, isStamp: string -> bool)
    requires StatusOf(file, isStamp).Some? && isStamp(now)
    ensures var d := Validate(file, isStamp).value;
            Written(file, Update([]), now, isStamp) == Some(d[UpdatedAt := Str(now)])
  {
    var d := Validate(file, isStamp).value;
    ValidatedHasStamp(file, isStamp);
    var next := d[UpdatedAt := Str(now)];
    assert next.Keys == V4_FIELDS && !IsLegacy(next) && ValidV4(next, isStamp);
    assert Assigned(d, []) == Some(d) && !SetsStamp([]);
  }

  /** What the lift adds: no recovery attempt, no claim, no reviewed head. */
  lemma LiftAddsNothing(d: Document)
    requires Migrate(d).Some?
    ensures var lifted := Migrate(d).value;
            && lifted.Keys == V4_FIELDS && lifted[Version] == Int(4)
            && lifted[RecoveryAttempt] == Int(0) && lifted[RecoveryClaim] == Null && lifted[ActivePrSha] == Null
  {
  }

  /** A new document in a status, with nothing else to say. */
  function New(status: Status, updated: Json): Document {
    map[
      Version := Int(4), StatusField := Str(NameOf(status)), OperationId := Null, RecoveryAttempt := Int(0),
      RecoveryClaim := Null, ActiveFeature := Null, ActivePr := Null, ActiveBranch := Null, ActivePrSha := Null,
      ReviewRound := Int(0), BuilderAttempt := Int(0), LastError := Null, LastReview := Str(""), UpdatedAt := updated]
  }

  /** It is valid in every status, exactly when its time is null or a stamp. */
  lemma NewIsValidIff(status: Status, updated: Json, isStamp: string -> bool)
    ensures ValidV4(New(status, updated), isStamp) <==> updated == Null || (updated.Str? && isStamp(updated.text))
  {
    NamesAreParsed(status);
    hide ParseStatus;
    assert New(status, updated).Keys == V4_FIELDS;
  }

  /** What a value must be like to stand in a field, whatever stands in the others. */
  predicate FieldFits(f: Field, j: Json, isStamp: string -> bool) {
    match f
    case Version => IsNumber(j, 4)
    case OperationId | ActiveFeature | ActiveBranch | ActivePrSha | LastError => j.Null? || j.Str?
    case LastReview => j.Str?
    case ActivePr => j.Null? || (j.Int? && j.n > 0)
    case ReviewRound | BuilderAttempt | RecoveryAttempt => j.Int? && j.n >= 0
    case RecoveryClaim => ValidClaim(j)
    case UpdatedAt => j.Null? || (j.Str? && isStamp(j.text))
    case StatusField => j.Str? && ParseStatus(j.text).Some?
    case _ => false
  }

  lemma SwappedIsValid(d: Document, f: Field, j: Json, isStamp: string -> bool)
    requires ValidV4(d, isStamp) && f in V4_FIELDS
    ensures ValidV4(d[f := j], isStamp) <==> FieldFits(f, j, isStamp)
  {
    hide ParseStatus, ValidClaim;
    assert d[f := j].Keys == V4_FIELDS;
  }

  lemma FieldsAreApart(d: Document, f: Field, j: Json, isStamp: string -> bool)
    requires ValidV4(d, isStamp)
    ensures ValidV4(d[f := j], isStamp) <==> FieldFits(f, j, isStamp)
    ensures Validate(Obj(d[f := j]), isStamp) == if FieldFits(f, j, isStamp) then Some(d[f := j]) else None
  {
    var next := d[f := j];
    assert f in next.Keys && next.Keys == V4_FIELDS + {f};
    if f in V4_FIELDS {
      SwappedIsValid(d, f, j, isStamp);
    } else {
      assert next.Keys != V4_FIELDS && !FieldFits(f, j, isStamp);
    }
    NotLifted(next);
    hide ValidV4, FieldFits, IsLegacy, Migrate;
  }

  lemma NotLifted(d: Document)
    requires V4_FIELDS <= d.Keys
    ensures Migrate(d).None?
  {
    assert RecoveryClaim in d.Keys && RecoveryClaim !in V3_FIELDS;
  }

  lemma OneAssignment(d: Document, f: Field, j: Json)
    ensures Assigned(d, [Assignment(f, Some(j))]) == if f in d then Some(d[f := j]) else None
    ensures SetsStamp([Assignment(f, Some(j))]) <==> f == UpdatedAt
  {
    var sets := [Assignment(f, Some(j))];
    assert sets[..0] == [] && Assigned(d, []) == Some(d) && sets[0].key == f;
  }

  lemma UpdatesCommute(d: Document, f: Field, j: Json, g: Field, k: Json)
    requires f != g
    ensures d[f := j][g := k] == d[g := k][f := j]
  {
  }

  lemma FieldAndStamp(d: Document, f: Field, j: Json, now: string, isStamp: string -> bool)
    requires ValidV4(d, isStamp) && isStamp(now) && f != UpdatedAt
    ensures var next := d[f := j][UpdatedAt := Str(now)];
            Validate(Obj(next), isStamp) == if FieldFits(f, j, isStamp) then Some(next) else None
  {
    assert FieldFits(UpdatedAt, Str(now), isStamp);
    hide *;
    FieldsAreApart(d, UpdatedAt, Str(now), isStamp);
    UpdatesCommute(d, f, j, UpdatedAt, Str(now));
    FieldsAreApart(d[UpdatedAt := Str(now)], f, j, isStamp);
  }

  /** Setting one field of a document is accepted exactly when the value fits the field and
      does not move the status. It changes this field and the time stamp and nothing else; a
      time that is set stays as set. */
  lemma AssignmentAcceptedIff(file: Json, f: Field, j: Json, now: string, isStamp: string -> bool)
    requires StatusOf(file, isStamp).Some? && isStamp(now)
    ensures var d := Validate(file, isStamp).value;
            Written(file, Update([Assignment(f, Some(j))]), now, isStamp) ==
            if !FieldFits(f, j, isStamp) || (f == StatusField && j != d[StatusField]) then None
            else Some(if f == UpdatedAt then d[f := j] else d[f := j][UpdatedAt := Str(now)])
  {
    var d := Validate(file, isStamp).value;
    ValidatedHasStamp(file, isStamp);
    assert UpdatedAt in d && StatusField in d && (f !in d ==> !FieldFits(f, j, isStamp));
    OneAssignment(d, f, j);
    hide Validate, ValidV4, Assigned, SetsStamp, ParseStatus, FieldFits, IsLegacy;
    if f == UpdatedAt { FieldsAreApart(d, f, j, isStamp); } else { FieldAndStamp(d, f, j, now, isStamp); }
  }

  /** A recovery claim. */
  function Claim(owner: string, at: string, stale: Status, operation: Option<string>, attempt: int): Json {
    Obj(map[
      Owner := Str(owner), ClaimedAt := Str(at), StaleStatus := Str(NameOf(stale)), Attempt := Int(attempt),
      OperationId := if operation.Some? then Str(operation.value) else Null, FeatureId := Null])
  }

  /** It is valid exactly when it names its owner and its time, counts its attempts from one,
      and takes over a status that is neither at rest, done nor blocked. */
  lemma ClaimIsValidIff(owner: string, at: string, stale: Status, operation: Option<string>, attempt: int)
    ensures ValidClaim(Claim(owner, at, stale, operation, attempt)) <==>
            && !Strippable(owner) && !Strippable(at) && attempt >= 1 && stale !in {IDLE, COMPLETED, BLOCKED}
  {
    NamesAreParsed(stale);
    hide ParseStatus, NameOf;
    assert Claim(owner, at, stale, operation, attempt).fields.Keys == CLAIM_FIELDS;
  }
}

/**
  The collaboration ownership store (src/core/collaboration.rs): compare-and-swap
  ownership of exclusive resources. Every operation runs under one store lock, so a run
  is a sequence of operations. Timestamps are left out.
 */
module Collaboration {
  import opened Text
  import opened Wrappers

  const MAX_COLLAB_RECORDS := 10_000
  const MAX_RESOURCE_ID_LEN := 256
  const MAX_NOTE_LEN := 512

  datatype Kind = Task | Worktree

  datatype Ownership = Assigned | Active | HandoffRequested | HandedOff | Released

  datatype Record = Record(
    kind: Kind, id: string, owner: string, session: Option<string>, state: Ownership,
    pending: Option<string>, revision: nat, note: Option<string>)

  datatype Error =
    | AlreadyOwned | NotOwned | NotOwner | NoPendingHandoff | StaleRevision | InvalidState
    | InvalidInput | StoreFull | Unreadable | WriteFailed

  datatype Op =
    | Assign(kind: Kind, id: string, owner: string, session: Option<string>,
             note: Option<string>, observed: Option<nat>)
    | Activate(kind: Kind, id: string, acting: string, expected: nat)
    | RequestHandoff(kind: Kind, id: string, acting: string, to: string,
                     note: Option<string>, expected: nat)
    | AcceptHandoff(kind: Kind, id: string, accepting: string, expected: nat)
    | Release(kind: Kind, id: string, acting: string, expected: nat)

  predicate IsHeld(s: Ownership) { !s.Released? }

  predicate IsValidTransition(from: Ownership, to: Ownership) {
    match from
    case Assigned => to in {Active, HandoffRequested, Released}
    case Active => to in {HandoffRequested, Released}
    case HandoffRequested => to in {HandedOff, Released, Assigned}
    case HandedOff => to in {Released, Active}
    case Released => false
  }

  predicate ValidResource(id: string) {
    && 0 < Bytes(id) <= MAX_RESOURCE_ID_LEN
    && '/' !in id && '\\' !in id && '\0' !in id
    && forall i :: 0 <= i < |id| - 1 ==> !(id[i] == '.' && id[i + 1] == '.')
  }

  predicate ValidNote(note: Option<string>) {
    note.Some? ==>
      Bytes(note.value) <= MAX_NOTE_LEN
      && '\0' !in note.value && '\r' !in note.value && '\n' !in note.value
  }

  predicate IsFor(r: Record, kind: Kind, id: string) { r.kind == kind && r.id == id }

  /** The index of the record of a resource, or the length when there is none. */
  function Position(records: seq<Record>, kind: Kind, id: string): (i: nat)
    ensures i <= |records|
    ensures i < |records| ==> IsFor(records[i], kind, id)
    ensures forall j :: 0 <= j < i ==> !IsFor(records[j], kind, id)
  {
    if records == [] || IsFor(records[0], kind, id) then 0
    else 1 + Position(records[1..], kind, id)
  }

  function Lookup(records: seq<Record>, kind: Kind, id: string): Option<Record> {
    var i := Position(records, kind, id);
    if i < |records| then Some(records[i]) else None
  }

  function Without(records: seq<Record>, kind: Kind, id: string): seq<Record> {
    if records == [] then []
    else (if IsFor(records[0], kind, id) then [] else [records[0]]) + Without(records[1..], kind, id)
  }

  lemma {:induction false} WithoutAppend(records: seq<Record>, r: Record, kind: Kind, id: string)
    ensures Without(records + [r], kind, id) ==
            Without(records, kind, id) + if IsFor(r, kind, id) then [] else [r]
  {
    var last := if IsFor(r, kind, id) then [] else [r];
    if records == [] {
      assert [] + [r] == [r] && [r][1..] == [];
      assert Without([r], kind, id) == last;
    } else {
      WithoutAppend(records[1..], r, kind, id);
      var longer, rest := records + [r], Without(records[1..], kind, id);
      assert longer[1..] == records[1..] + [r] && longer[0] == records[0];
      var first := if IsFor(records[0], kind, id) then [] else [records[0]];
      assert first + (rest + last) == (first + rest) + last;
    }
  }

  /** The operations on an existing record, as the closures passed to `mutate`. */
  function Apply(r: Record, op: Op): Result<Record, Error>
    requires !op.Assign?
  {
    match op
    case Activate(_, _, _, _) =>
      if !IsValidTransition(r.state, Active) then Err(InvalidState)
      else Ok(r.(state := Active, revision := r.revision + 1))
    case RequestHandoff(_, _, _, to, note, _) =>
      if r.state.HandoffRequested? && r.pending == Some(to) then Ok(r)
      else if !IsValidTransition(r.state, HandoffRequested) then Err(InvalidState)
      else Ok(r.(state := HandoffRequested, pending := Some(to),
                 note := if note.Some? then note else r.note, revision := r.revision + 1))
    case AcceptHandoff(_, _, accepting, _) =>
      if !r.state.HandoffRequested? then Err(InvalidState)
      else if r.pending != Some(accepting) then Err(NoPendingHandoff)
      else Ok(r.(state := HandedOff, owner := accepting, session := None, pending := None,
                 revision := r.revision + 1))
    case Release(_, _, _, _) =>
      if !IsValidTransition(r.state, Released) then Err(InvalidState)
      else Ok(r.(state := Released, pending := None, revision := r.revision + 1))
  }

  function ActingAgent(op: Op): Option<string>
    requires !op.Assign?
  {
    if op.AcceptHandoff? then None else Some(op.acting)
  }

  function AssignStep(records: seq<Record>, op: Op, saved: bool): (seq<Record>, Result<Record, Error>)
    requires op.Assign?
  {
    if !ValidResource(op.id) || !ValidNote(op.note) then (records, Err(InvalidInput))
    else if |records| > MAX_COLLAB_RECORDS then (records, Err(Unreadable))
    else
      var prior := Lookup(records, op.kind, op.id);
      if prior.Some? && IsHeld(prior.value.state) then (records, Err(AlreadyOwned))
      else if prior.Some? && op.observed != Some(prior.value.revision) then (records, Err(StaleRevision))
      else if prior.None? && |records| >= MAX_COLLAB_RECORDS then (records, Err(StoreFull))
      else if !saved then (records, Err(WriteFailed))
      else
        var revision := if prior.Some? then prior.value.revision + 1 else 1;
        var r := Record(op.kind, op.id, op.owner, op.session, Assigned, None, revision, op.note);
        (Without(records, op.kind, op.id) + [r], Ok(r))
  }

  function MutateStep(records: seq<Record>, op: Op, saved: bool): (seq<Record>, Result<Record, Error>)
    requires !op.Assign?
  {
    var i := Position(records, op.kind, op.id);
    if !ValidResource(op.id) || (op.RequestHandoff? && !ValidNote(op.note)) then (records, Err(InvalidInput))
    else if |records| > MAX_COLLAB_RECORDS then (records, Err(Unreadable))
    else if i == |records| then (records, Err(NotOwned))
    else if ActingAgent(op).Some? && records[i].owner != ActingAgent(op).value then (records, Err(NotOwner))
    else if records[i].revision != op.expected then (records, Err(StaleRevision))
    else
      var applied := Apply(records[i], op);
      if applied.Err? then (records, applied)
      else if applied.value.revision == op.expected then (records, applied)
      else if !saved then (records, Err(WriteFailed))
      else (records[i := applied.value], applied)
  }

  /** One operation on the store file; `saved` says whether its atomic write succeeds. */
  function Step(records: seq<Record>, op: Op, saved: bool): (seq<Record>, Result<Record, Error>) {
    if op.Assign? then AssignStep(records, op, saved) else MutateStep(records, op, saved)
  }

  class CollaborationStore {
    var records: seq<Record>

    constructor ()
      ensures records == []
    {
      records := [];
    }

    method FindPosition(kind: Kind, id: string) returns (i: nat)
      ensures i == Position(records, kind, id)
    {
      i := 0;
      while i < |records| && !IsFor(records[i], kind, id)
        invariant i <= |records|
        invariant Position(records, kind, id) == i + Position(records[i..], kind, id)
      {
        i := i + 1;
      }
      if i == |records| { assert records[i..] == []; }
    }

    method Retain(kind: Kind, id: string) returns (kept: seq<Record>)
      ensures kept == Without(records, kind, id)
    {
      kept := [];
      for i := 0 to |records|
        invariant kept == Without(records[..i], kind, id)
      {
        WithoutAppend(records[..i], records[i], kind, id);
        assert records[..i + 1] == records[..i] + [records[i]];
        if !IsFor(records[i], kind, id) {
          kept := kept + [records[i]];
        }
      }
      assert records[..|records|] == records;
    }

    method AssignOwner(op: Op, saved: bool) returns (r: Result<Record, Error>)
      requires op.Assign?
      modifies this
      ensures (records, r) == AssignStep(old(records), op, saved)
    {
      if !ValidResource(op.id) || !ValidNote(op.note) { return Err(InvalidInput); }
      if |records| > MAX_COLLAB_RECORDS { return Err(Unreadable); }
      var revision := 1;
      var i := FindPosition(op.kind, op.id);
      if i < |records| {
        if IsHeld(records[i].state) { return Err(AlreadyOwned); }
        if op.observed != Some(records[i].revision) { return Err(StaleRevision); }
        revision := records[i].revision + 1;
      } else if |records| >= MAX_COLLAB_RECORDS {
        return Err(StoreFull);
      }
      var record := Record(op.kind, op.id, op.owner, op.session, Assigned, None, revision, op.note);
      var file := Retain(op.kind, op.id);
      file := file + [record];
      if !saved { return Err(WriteFailed); }
      records := file;
      r := Ok(record);
    }

    method Mutate(op: Op, saved: bool) returns (r: Result<Record, Error>)
      requires !op.Assign?
      modifies this
      ensures (records, r) == MutateStep(old(records), op, saved)
    {
      if !ValidResource(op.id) || (op.RequestHandoff? && !ValidNote(op.note)) { return Err(InvalidInput); }
      if |records| > MAX_COLLAB_RECORDS { return Err(Unreadable); }
      var i := FindPosition(op.kind, op.id);
      if i == |records| { return Err(NotOwned); }
      var acting := ActingAgent(op);
      if acting.Some? && records[i].owner != acting.value { return Err(NotOwner); }
      if records[i].revision != op.expected { return Err(StaleRevision); }
      r := Apply(records[i], op);
      if r.Err? || r.value.revision == op.expected { return; }
      if !saved { return Err(WriteFailed); }
      records := records[i := r.value];
    }
  }

  // ---------------------------------------------------------------- the store file

  ghost predicate UniqueKeys(records: seq<Record>) {
    forall i, j :: 0 <= i < j < |records| ==> !IsFor(records[j], records[i].kind, records[i].id)
  }

  predicate WellFormed(r: Record) {
    && r.revision >= 1
    && (r.pending.Some? <==> r.state.HandoffRequested?)
    && ValidResource(r.id)
  }

  /** One record per resource, readable by `load`, each record well formed. */
  ghost predicate Inv(records: seq<Record>) {
    && |records| <= MAX_COLLAB_RECORDS
    && UniqueKeys(records)
    && forall r :: r in records ==> WellFormed(r)
  }

  lemma {:induction false} WithoutIn(records: seq<Record>, kind: Kind, id: string, x: Record)
    ensures x in Without(records, kind, id) <==> x in records && !IsFor(x, kind, id)
  {
    if records != [] {
      WithoutIn(records[1..], kind, id, x);
      assert x in records <==> x == records[0] || x in records[1..];
    }
  }

  lemma {:induction false} WithoutUnique(records: seq<Record>, kind: Kind, id: string)
    requires UniqueKeys(records)
    ensures UniqueKeys(Without(records, kind, id))
    ensures |Without(records, kind, id)| <= |records|
    ensures Lookup(records, kind, id).Some? ==> |Without(records, kind, id)| < |records|
  {
    if records != [] {
      WithoutUnique(records[1..], kind, id);
      var rest := Without(records[1..], kind, id);
      forall j | 0 <= j < |rest| ensures !IsFor(rest[j], records[0].kind, records[0].id) {
        WithoutIn(records[1..], kind, id, rest[j]);
        assert rest[j] in records[1..];
      }
    }
  }

  lemma StepKeepsInv(records: seq<Record>, op: Op, saved: bool)
    requires Inv(records)
    ensures Inv(Step(records, op, saved).0)
  {
    if op.Assign? {
      WithoutUnique(records, op.kind, op.id);
      AssignKeepsInv(records, op, saved);
    } else {
      MutateKeepsInv(records, op, saved);
    }
  }

  lemma AssignKeepsInv(records: seq<Record>, op: Op, saved: bool)
    requires op.Assign? && Inv(records)
    ensures Inv(AssignStep(records, op, saved).0)
  {
    WithoutUnique(records, op.kind, op.id);
    var kept := Without(records, op.kind, op.id);
    forall i | 0 <= i < |kept| ensures !IsFor(kept[i], op.kind, op.id) && kept[i] in records {
      WithoutIn(records, op.kind, op.id, kept[i]);
    }
  }

  lemma MutateKeepsInv(records: seq<Record>, op: Op, saved: bool)
    requires !op.Assign? && Inv(records)
    ensures Inv(MutateStep(records, op, saved).0)
  {
    var i := Position(records, op.kind, op.id);
    if i < |records| {
      assert WellFormed(records[i]);
    }
  }

  // ---------------------------------------------------------------- one step, one resource

  lemma {:induction false} PositionIs(records: seq<Record>, kind: Kind, id: string, i: nat)
    requires UniqueKeys(records) && i < |records| && IsFor(records[i], kind, id)
    ensures Position(records, kind, id) == i
  {
    if i > 0 {
      assert !IsFor(records[i], records[0].kind, records[0].id);
      PositionIs(records[1..], kind, id, i - 1);
    }
  }

  lemma LookupOf(records: seq<Record>, r: Record)
    requires UniqueKeys(records) && r in records
    ensures Lookup(records, r.kind, r.id) == Some(r)
  {
    var i :| 0 <= i < |records| && records[i] == r;
    PositionIs(records, r.kind, r.id, i);
  }

  lemma LookupCons(r: Record, rest: seq<Record>, kind: Kind, id: string)
    ensures Lookup([r] + rest, kind, id) == if IsFor(r, kind, id) then Some(r) else Lookup(rest, kind, id)
  {
    assert ([r] + rest)[1..] == rest;
  }

  lemma {:induction false} LookupWithoutOther(records: seq<Record>, kind: Kind, id: string, k: Kind, i: string)
    requires (k, i) != (kind, id)
    ensures Lookup(Without(records, kind, id), k, i) == Lookup(records, k, i)
  {
    if records != [] {
      LookupWithoutOther(records[1..], kind, id, k, i);
      var first, tail, rest := records[0], records[1..], Without(records[1..], kind, id);
      assert records == [first] + tail;
      LookupCons(first, tail, k, i);
      LookupCons(first, rest, k, i);
      assert Without(records, kind, id) == if IsFor(first, kind, id) then rest else [first] + rest by {
        assert [] + rest == rest;
      }
    }
  }

  lemma {:induction false} LookupAppendOther(records: seq<Record>, r: Record, k: Kind, i: string)
    requires !IsFor(r, k, i)
    ensures Lookup(records + [r], k, i) == Lookup(records, k, i)
  {
    if records != [] {
      LookupAppendOther(records[1..], r, k, i);
      assert (records + [r])[1..] == records[1..] + [r];
    }
  }

  lemma {:induction false} LookupUpdateOther(records: seq<Record>, j: nat, r: Record, k: Kind, i: string)
    requires j < |records| && !IsFor(r, k, i) && !IsFor(records[j], k, i)
    ensures Lookup(records[j := r], k, i) == Lookup(records, k, i)
  {
    if j > 0 {
      LookupUpdateOther(records[1..], j - 1, r, k, i);
      assert records[j := r][1..] == records[1..][j - 1 := r];
    } else {
      assert records[j := r][1..] == records[1..];
    }
  }

  /** An operation leaves every other resource alone. */
  lemma StepElsewhere(records: seq<Record>, op: Op, saved: bool, kind: Kind, id: string)
    requires (kind, id) != (op.kind, op.id)
    ensures Lookup(Step(records, op, saved).0, kind, id) == Lookup(records, kind, id)
  {
    var (after, r) := Step(records, op, saved);
    if op.Assign? {
      LookupWithoutOther(records, op.kind, op.id, kind, id);
      if r.Ok? { LookupAppendOther(Without(records, op.kind, op.id), r.value, kind, id); }
    } else {
      var i := Position(records, op.kind, op.id);
      if i < |records| && r.Ok? { LookupUpdateOther(records, i, r.value, kind, id); }
    }
  }

  /** On its own resource an operation either changes nothing or installs the record it
      returns, one revision up. */
  lemma StepHere(records: seq<Record>, op: Op, saved: bool)
    requires Inv(records)
    ensures var (after, r) := Step(records, op, saved);
            var before := Lookup(records, op.kind, op.id);
            || after == records
            || (r.Ok? && Lookup(after, op.kind, op.id) == Some(r.value)
                && r.value.revision == Revision(before) + 1
                && (op.Assign? && before.Some? ==> op.observed == Some(Revision(before)))
                && (!op.Assign? ==> before.Some? && op.expected == Revision(before)
                                    && r == Apply(before.value, op)
                                    && (ActingAgent(op).Some? ==> ActingAgent(op).value == before.value.owner)))
  {
    var (after, r) := Step(records, op, saved);
    if after != records {
      StepKeepsInv(records, op, saved);
      assert r.value in after;
      LookupOf(after, r.value);
    }
  }

  // ---------------------------------------------------------------- which operations succeed

  /** A store file that loads and has this record. */
  predicate Holds(records: seq<Record>, r: Record) {
    |records| <= MAX_COLLAB_RECORDS && ValidResource(r.id) && Lookup(records, r.kind, r.id) == Some(r)
  }

  /** The record is replaced in its place and the operation returns the new one. */
  predicate Becomes(records: seq<Record>, op: Op, r: Record, s: Record) {
    var i := Position(records, r.kind, r.id);
    i < |records| && Step(records, op, true) == (records[i := s], Ok(s))
  }

  predicate Refused(records: seq<Record>, op: Op, error: Error) {
    Step(records, op, true) == (records, Err(error))
  }

  /** The owner who names the present revision can release a resource exactly while it is
      held; it keeps its session and note and no longer has a pending agent. */
  lemma ReleaseIff(records: seq<Record>, r: Record)
    requires Holds(records, r)
    ensures var op := Release(r.kind, r.id, r.owner, r.revision);
            if r.state == Released then Refused(records, op, InvalidState)
            else Becomes(records, op, r,
                         Record(r.kind, r.id, r.owner, r.session, Released, None, r.revision + 1, r.note))
  {
    hide ValidResource;
  }

  /** And start work exactly on one that was assigned or handed over to it, which changes
      nothing but the state. */
  lemma ActivateIff(records: seq<Record>, r: Record)
    requires Holds(records, r)
    ensures var op := Activate(r.kind, r.id, r.owner, r.revision);
            if r.state in {Assigned, HandedOff}
            then Becomes(records, op, r,
                         Record(r.kind, r.id, r.owner, r.session, Active, r.pending, r.revision + 1, r.note))
            else Refused(records, op, InvalidState)
  {
    hide ValidResource;
  }

  /** And offer it to another agent exactly from those states in which it has been assigned or
      is worked on; a note that comes with the offer replaces the note. Repeating a pending
      offer returns the record and changes nothing. */
  lemma RequestHandoffIff(records: seq<Record>, r: Record, to: string, note: Option<string>)
    requires Holds(records, r) && ValidNote(note)
    ensures var op := RequestHandoff(r.kind, r.id, r.owner, to, note, r.revision);
            if r.state in {Assigned, Active}
            then Becomes(records, op, r,
                         Record(r.kind, r.id, r.owner, r.session, HandoffRequested, Some(to), r.revision + 1,
                                if note.Some? then note else r.note))
            else if r.state == HandoffRequested && r.pending == Some(to)
            then Step(records, op, true) == (records, Ok(r))
            else Refused(records, op, InvalidState)
  {
    hide ValidResource, ValidNote;
  }

  /** The agent to whom an offer is pending, and no other, becomes the owner by accepting it;
      the session is cleared and the note stays. */
  lemma AcceptHandoffIff(records: seq<Record>, r: Record, agent: string)
    requires Holds(records, r)
    ensures var op := AcceptHandoff(r.kind, r.id, agent, r.revision);
            if r.state == HandoffRequested && r.pending == Some(agent)
            then Becomes(records, op, r, Record(r.kind, r.id, agent, None, HandedOff, None, r.revision + 1, r.note))
            else Refused(records, op, if r.state == HandoffRequested then NoPendingHandoff else InvalidState)
  {
    hide ValidResource;
  }

  /** Anybody can take over a released resource by naming its revision, and a resource nobody
      has had by naming anything, as long as there is room. */
  lemma AssignIff(records: seq<Record>, op: Op)
    requires Inv(records) && op.Assign? && ValidResource(op.id) && ValidNote(op.note)
    ensures var before := Lookup(records, op.kind, op.id);
            var revision := if before.Some? then before.value.revision + 1 else 1;
            var r := Record(op.kind, op.id, op.owner, op.session, Assigned, None, revision, op.note);
            if before.Some? && before.value.state != Released then Refused(records, op, AlreadyOwned)
            else if before.Some? && op.observed != Some(before.value.revision) then Refused(records, op, StaleRevision)
            else if before.None? && |records| == MAX_COLLAB_RECORDS then Refused(records, op, StoreFull)
            else Step(records, op, true).1 == Ok(r) && Lookup(Step(records, op, true).0, op.kind, op.id) == Some(r)
  {
    hide ValidResource, ValidNote;
    StepKeepsInv(records, op, true);
    var (after, r) := Step(records, op, true);
    if r.Ok? {
      assert after[|after| - 1] == r.value;
      LookupOf(after, r.value);
    }
  }

  /** Only the owner can release, activate or offer, and every operation on a record has to
      name its revision. */
  lemma OthersAreRefused(records: seq<Record>, r: Record, op: Op)
    requires Holds(records, r) && !op.Assign? && op.kind == r.kind && op.id == r.id
    requires op.RequestHandoff? ==> ValidNote(op.note)
    ensures (op.Release? || op.Activate? || op.RequestHandoff?) && op.acting != r.owner ==>
              Refused(records, op, NotOwner)
    ensures op.expected != r.revision ==> Refused(records, op, NotOwner) || Refused(records, op, StaleRevision)
  {
    hide ValidResource, ValidNote;
  }

  /** An operation whose write fails changes nothing, and succeeds only if it had nothing to
      write. */
  lemma FailedWriteChangesNothing(records: seq<Record>, op: Op)
    ensures Step(records, op, false).0 == records
    ensures Step(records, op, true).0 != records ==> Step(records, op, false).1 == Err(WriteFailed)
  {
    hide ValidResource, ValidNote;
  }

  predicate Contains(s: string, part: string) { exists i :: 0 <= i <= |s| && part <= s[i..] }

  lemma ContainsChar(s: string, c: char)
    ensures Contains(s, [c]) <==> c in s
  {
    if c in s {
      var i :| 0 <= i < |s| && s[i] == c;
      assert [c] <= s[i..];
    }
    if Contains(s, [c]) {
      var i :| 0 <= i <= |s| && [c] <= s[i..];
      assert s[i] == s[i..][0] == c;
    }
  }

  lemma ContainsPair(s: string, c: char)
    ensures Contains(s, [c, c]) <==> exists i :: 0 <= i < |s| - 1 && s[i] == c && s[i + 1] == c
  {
    if i :| 0 <= i < |s| - 1 && s[i] == c && s[i + 1] == c { assert [c, c] <= s[i..]; }
    if Contains(s, [c, c]) {
      var i :| 0 <= i <= |s| && [c, c] <= s[i..];
      assert s[i] == s[i..][0] == c && s[i + 1] == s[i..][1] == c;
    }
  }

  /** A name is refused exactly when it is empty, longer than 256 bytes, or has a separator, a
      null character or two dots in a row in it; a note, when it is longer than 512 bytes or
      has a null character or a line break. */
  lemma NamesAreRefusedIff(id: string, note: string)
    ensures !ValidResource(id) <==>
              id == "" || Bytes(id) > 256 || exists x :: x in {"/", "\\", "\0", ".."} && Contains(id, x)
    ensures !ValidNote(Some(note)) <==>
              Bytes(note) > 512 || exists x :: x in {"\0", "\r", "\n"} && Contains(note, x)
    ensures ValidNote(None)
  {
    ContainsChar(id, '/');
    ContainsChar(id, '\\');
    ContainsChar(id, '\0');
    ContainsPair(id, '.');
    ContainsChar(note, '\0');
    ContainsChar(note, '\r');
    ContainsChar(note, '\n');
    EmptyIffNoBytes(id);
    hide Contains, Bytes;
  }

  lemma EmptyIffNoBytes(s: string)
    ensures Bytes(s) == 0 <==> s == ""
  {
  }

  /** Plain names are accepted as resources: up to 256 ASCII letters and digits. */
  lemma {:induction false} PlainNamesAreValid(id: string)
    requires 0 < |id| <= 256 && forall c :: c in id ==> IsAsciiAlnum(c)
    ensures ValidResource(id)
  {
    AsciiBytes(id);
    forall i | 0 <= i < |id| ensures id[i] != '.' && id[i] != '/' && id[i] != '\\' && id[i] != '\0' {
      assert id[i] in id;
    }
  }

  lemma {:induction false} AsciiBytes(s: string)
    requires forall c :: c in s ==> IsAsciiAlnum(c)
    ensures Bytes(s) == |s|
  {
    if s != "" {
      assert s[0] in s;
      AsciiBytes(s[1..]);
    }
  }

  function Revision(r: Option<Record>): nat { if r.Some? then r.value.revision else 0 }

  // ---------------------------------------------------------------- runs

  datatype Attempt = Attempt(op: Op, saved: bool)

  /** The store file after a run of operations from an empty store. */
  function After(run: seq<Attempt>): seq<Record> {
    if run == [] then []
    else Step(After(run[..|run| - 1]), run[|run| - 1].op, run[|run| - 1].saved).0
  }

  function RecordAfter(run: seq<Attempt>, n: nat, kind: Kind, id: string): Option<Record>
    requires n <= |run|
  {
    Lookup(After(run[..n]), kind, id)
  }

  lemma {:induction false} RunsKeepInv(run: seq<Attempt>)
    ensures Inv(After(run))
  {
    if run != [] {
      RunsKeepInv(run[..|run| - 1]);
      StepKeepsInv(After(run[..|run| - 1]), run[|run| - 1].op, run[|run| - 1].saved);
    }
  }

  /** Whether operation `i` of the run changed the record of the resource. */
  predicate Changes(run: seq<Attempt>, i: nat, kind: Kind, id: string)
    requires i < |run|
  {
    RecordAfter(run, i + 1, kind, id) != RecordAfter(run, i, kind, id)
  }

  lemma RunStep(run: seq<Attempt>, i: nat)
    requires i < |run|
    ensures After(run[..i + 1]) == Step(After(run[..i]), run[i].op, run[i].saved).0
    ensures Inv(After(run[..i])) && Inv(After(run[..i + 1]))
  {
    assert run[..i + 1][..i] == run[..i];
    RunsKeepInv(run[..i]);
    RunsKeepInv(run[..i + 1]);
  }

  /** What an operation that changes a record was, and what it made of it. */
  lemma ChangeIs(run: seq<Attempt>, i: nat, kind: Kind, id: string)
    requires i < |run| && Changes(run, i, kind, id)
    ensures var op := run[i].op;
            var before, after := RecordAfter(run, i, kind, id), RecordAfter(run, i + 1, kind, id);
            && op.kind == kind && op.id == id && after.Some?
            && after.value.revision == Revision(before) + 1
            && (op.Assign? && before.Some? ==> op.observed == Some(Revision(before)))
            && (op.Assign? ==> after.value.owner == op.owner && after.value.state == Assigned
                               && (before.Some? ==> before.value.state == Released))
            && (!op.Assign? ==> before.Some? && op.expected == Revision(before)
                                && Apply(before.value, op) == Ok(after.value)
                                && (ActingAgent(op).Some? ==> ActingAgent(op).value == before.value.owner))
  {
    RunStep(run, i);
    var op := run[i].op;
    if (op.kind, op.id) != (kind, id) {
      StepElsewhere(After(run[..i]), op, run[i].saved, kind, id);
    } else {
      StepHere(After(run[..i]), op, run[i].saved);
    }
  }

  /** Revisions never go back, and one revision of a resource is one record. */
  lemma {:induction false} SameRevisionSameRecord(run: seq<Attempt>, i: nat, j: nat, kind: Kind, id: string)
    requires i <= j <= |run|
    ensures Revision(RecordAfter(run, i, kind, id)) <= Revision(RecordAfter(run, j, kind, id))
    ensures Revision(RecordAfter(run, i, kind, id)) == Revision(RecordAfter(run, j, kind, id)) ==>
              RecordAfter(run, i, kind, id) == RecordAfter(run, j, kind, id)
    decreases j - i
  {
    if i < j {
      SameRevisionSameRecord(run, i, j - 1, kind, id);
      if Changes(run, j - 1, kind, id) { ChangeIs(run, j - 1, kind, id); }
    }
  }

  /** The revision an operation was submitted with. */
  function Submitted(op: Op): Option<nat> {
    if op.Assign? then op.observed else Some(op.expected)
  }

  /** Two operations of a run on one resource, submitted with the same revision, that both
      change its record. */
  predicate TwoWinners(run: seq<Attempt>, i: nat, j: nat, kind: Kind, id: string)
    requires i < j < |run|
  {
    Submitted(run[i].op) == Submitted(run[j].op) && Changes(run, i, kind, id) && Changes(run, j, kind, id)
  }

  /** Of the operations on one resource submitted with one revision at most one changes the
      record, unless the first is a first assignment that names a revision from one on. In
      particular, of any number of agents who race for an unowned resource, naming no
      revision, one gets it. */
  lemma AtMostOneWinner(run: seq<Attempt>, i: nat, j: nat, kind: Kind, id: string)
    requires i < j < |run|
    requires RecordAfter(run, i, kind, id).Some? || Submitted(run[i].op) in {None, Some(0)}
    ensures !TwoWinners(run, i, j, kind, id)
  {
    if TwoWinners(run, i, j, kind, id) {
      ChangeIs(run, i, kind, id);
      ChangeIs(run, j, kind, id);
      SameRevisionSameRecord(run, i + 1, j, kind, id);
      assert false;
    }
  }

  /** The operation that takes a resource from revision `k` to the next, in a run of
      assignments and releases by one agent; the first assignment names revision `n`. */
  function Turn(kind: Kind, id: string, agent: string, n: nat, k: nat): Op {
    if k == 0 then Assign(kind, id, agent, None, None, Some(n))
    else if k % 2 == 1 then Release(kind, id, agent, k)
    else Assign(kind, id, agent, None, None, Some(k))
  }

  function Turns(kind: Kind, id: string, agent: string, n: nat, k: nat): seq<Attempt> {
    if k == 0 then [] else Turns(kind, id, agent, n, k - 1) + [Attempt(Turn(kind, id, agent, n, k - 1), true)]
  }

  function TurnRecord(kind: Kind, id: string, agent: string, k: nat): Record {
    Record(kind, id, agent, None, if k % 2 == 1 then Assigned else Released, None, k, None)
  }

  lemma TurnStep(kind: Kind, id: string, agent: string, n: nat, k: nat)
    requires ValidResource(id)
    ensures var records := if k == 0 then [] else [TurnRecord(kind, id, agent, k)];
            Step(records, Turn(kind, id, agent, n, k), true).0 == [TurnRecord(kind, id, agent, k + 1)]
  {
    hide ValidResource;
    var records := if k == 0 then [] else [TurnRecord(kind, id, agent, k)];
    assert k > 0 ==> records[1..] == [];
    assert Without(records, kind, id) == [];
    assert [] + [TurnRecord(kind, id, agent, k + 1)] == [TurnRecord(kind, id, agent, k + 1)];
  }

  lemma {:induction false} TurnsReach(kind: Kind, id: string, agent: string, n: nat, k: nat)
    requires ValidResource(id)
    ensures |Turns(kind, id, agent, n, k)| == k
    ensures After(Turns(kind, id, agent, n, k)) == if k == 0 then [] else [TurnRecord(kind, id, agent, k)]
  {
    hide ValidResource;
    if k > 0 {
      TurnsReach(kind, id, agent, n, k - 1);
      TurnStep(kind, id, agent, n, k - 1);
      var run := Turns(kind, id, agent, n, k);
      assert run[..k - 1] == Turns(kind, id, agent, n, k - 1);
    }
  }

  lemma {:induction false} TurnsPrefix(kind: Kind, id: string, agent: string, n: nat, k: nat, m: nat)
    requires k <= m
    ensures |Turns(kind, id, agent, n, m)| == m
    ensures Turns(kind, id, agent, n, m)[..k] == Turns(kind, id, agent, n, k)
    ensures k < m ==> Turns(kind, id, agent, n, m)[k].op == Turn(kind, id, agent, n, k)
  {
    if k < m {
      TurnsPrefix(kind, id, agent, n, k, m - 1);
    } else if m > 0 {
      TurnsPrefix(kind, id, agent, n, m - 1, m - 1);
    }
  }

  lemma TurnChanges(kind: Kind, id: string, agent: string, n: nat, k: nat, m: nat)
    requires ValidResource(id) && k < m
    ensures |Turns(kind, id, agent, n, m)| == m
    ensures Changes(Turns(kind, id, agent, n, m), k, kind, id)
    ensures Turns(kind, id, agent, n, m)[k].op == Turn(kind, id, agent, n, k)
  {
    TurnsPrefix(kind, id, agent, n, k, m);
    TurnsPrefix(kind, id, agent, n, k + 1, m);
    TurnsReach(kind, id, agent, n, k);
    TurnsReach(kind, id, agent, n, k + 1);
  }

  /** A first assignment does not look at the revision it names, so the exception is needed:
      for every resource and every revision from one on there is a run in which a first
      assignment and a later operation, both submitted with it, change the record. */
  lemma FirstAssignmentIgnoresTheRevision(kind: Kind, id: string, agent: string, n: nat) returns (run: seq<Attempt>)
    requires ValidResource(id) && n >= 1
    ensures |run| == n + 1 && Submitted(run[0].op) == Some(n) && TwoWinners(run, 0, n, kind, id)
  {
    hide ValidResource, Turns, Changes;
    run := Turns(kind, id, agent, n, n + 1);
    TurnChanges(kind, id, agent, n, 0, n + 1);
    TurnChanges(kind, id, agent, n, n, n + 1);
  }

  ghost predicate SomeRunHasTwoWinners(kind: Kind, id: string, submitted: Option<nat>) {
    exists run: seq<Attempt>, i: nat, j: nat ::
      i < j < |run| && TwoWinners(run, i, j, kind, id) && Submitted(run[i].op) == submitted
  }

  /** So two operations submitted with one revision can both win exactly for the revisions
      from one on. */
  lemma TwoWinnersIff(kind: Kind, id: string, submitted: Option<nat>)
    requires ValidResource(id)
    ensures SomeRunHasTwoWinners(kind, id, submitted) <==> submitted !in {None, Some(0)}
  {
    hide ValidResource;
    if submitted in {None, Some(0)} {
      forall run: seq<Attempt>, i: nat, j: nat | i < j < |run| && Submitted(run[i].op) == submitted
        ensures !TwoWinners(run, i, j, kind, id)
      {
        AtMostOneWinner(run, i, j, kind, id);
      }
    } else {
      var run := FirstAssignmentIgnoresTheRevision(kind, id, "", submitted.value);
    }
  }

  /** The last operation that changed the record. */
  function LastChange(run: seq<Attempt>, n: nat, kind: Kind, id: string): (i: nat)
    requires n <= |run| && RecordAfter(run, n, kind, id).Some?
    ensures i < n && Changes(run, i, kind, id)
    ensures forall m :: i < m <= n ==> RecordAfter(run, m, kind, id) == RecordAfter(run, n, kind, id)
  {
    if Changes(run, n - 1, kind, id) then n - 1 else LastChange(run, n - 1, kind, id)
  }

  /** Every record tells who made it: assigned to its owner, activated, released or offered
      by its owner, or accepted by its owner from an agent who had offered it. */
  lemma Provenance(run: seq<Attempt>, n: nat, kind: Kind, id: string)
    requires n <= |run| && RecordAfter(run, n, kind, id).Some?
    ensures var r := RecordAfter(run, n, kind, id).value;
            var op := run[LastChange(run, n, kind, id)].op;
            && op.kind == kind && op.id == id
            && (r.pending.Some? <==> r.state.HandoffRequested?)
            && match r.state
               case Assigned => op.Assign? && op.owner == r.owner
               case Active => op.Activate? && op.acting == r.owner
               case HandoffRequested => op.RequestHandoff? && op.acting == r.owner && r.pending == Some(op.to)
               case HandedOff => op.AcceptHandoff? && op.accepting == r.owner
               case Released => op.Release? && op.acting == r.owner
  {
    var i := LastChange(run, n, kind, id);
    ChangeIs(run, i, kind, id);
    assert RecordAfter(run, i + 1, kind, id) == RecordAfter(run, n, kind, id);
    RunStep(run, i);
    LookupIsIn(After(run[..i + 1]), kind, id);
  }

  lemma LookupIsIn(records: seq<Record>, kind: Kind, id: string)
    ensures Lookup(records, kind, id).Some? ==> Lookup(records, kind, id).value in records
  {
  }

  /** Ownership passes only by consent. When operation `j` moves a resource from agent a to
      another, a had given it up: the operation that last touched the record was a's own
      release, followed by an assignment, or a's own offer to the agent who now accepts. */
  lemma OwnershipPassesByConsent(run: seq<Attempt>, j: nat, kind: Kind, id: string)
    requires j < |run|
    requires RecordAfter(run, j, kind, id).Some? && RecordAfter(run, j + 1, kind, id).Some?
    requires RecordAfter(run, j, kind, id).value.owner != RecordAfter(run, j + 1, kind, id).value.owner
    ensures var a := RecordAfter(run, j, kind, id).value.owner;
            var b := RecordAfter(run, j + 1, kind, id).value.owner;
            var gave := run[LastChange(run, j, kind, id)].op;
            var took := run[j].op;
            && gave.kind == took.kind == kind && gave.id == took.id == id
            && (|| (gave.Release? && gave.acting == a && took.Assign? && took.owner == b)
                || (gave.RequestHandoff? && gave.acting == a && gave.to == b
                    && took.AcceptHandoff? && took.accepting == b))
  {
    ChangeIs(run, j, kind, id);
    Provenance(run, j, kind, id);
  }

  /** Sending a handoff request again changes nothing: with the revision it produced it
      returns the pending record, with the revision it consumed it is stale. */
  lemma HandoffReplay(records: seq<Record>, op: Op, again: bool)
    requires Inv(records) && op.RequestHandoff?
    requires Step(records, op, true).0 != records
    ensures var (after, r) := Step(records, op, true);
            && Step(after, RequestHandoff(op.kind, op.id, op.acting, op.to, op.note, r.value.revision), again)
               == (after, r)
            && Step(after, op, again) == (after, Err(StaleRevision))
  {
    StepHere(records, op, true);
    StepKeepsInv(records, op, true);
    var (after, r) := Step(records, op, true);
    var i := Position(after, op.kind, op.id);
    assert after[i] == r.value;
  }
}

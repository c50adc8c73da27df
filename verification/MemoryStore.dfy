/**
  The memory store (src/core/memory.rs): a list of entries with unique ids, and the
  migration of a legacy JSON-lines file into it.
 */
module MemoryStore {
  import opened Text
  import opened Wrappers

  const MAX_MEMORY_ENTRIES := 10_000
  const MAX_MEMORY_CONTENT_BYTES := 1024 * 1024
  const MAX_MEMORY_ID_LEN := 256
  const MAX_MEMORY_TAGS := 64
  const MAX_MEMORY_TAG_LEN := 128

  datatype Scope = Session | Project | Global

  datatype Entry = Entry(
    id: string, scope: Scope, content: string, tags: seq<string>, createdAt: string, updatedAt: string)

  datatype LegacyEntry = LegacyEntry(timestamp: string, content: string)

  datatype Error = InvalidInput | StoreFull | NotFound | WriteFailed

  /** The two files and the archive the legacy file is renamed to. */
  datatype Disk = Disk(entries: seq<Entry>, legacy: Option<string>, archived: Option<string>)

  /** Where an attempt to migrate ends: by a crash or an I/O failure around the publication
      of the store, or by running through. */
  datatype Stop = BeforePublish | AfterPublish | RunsThrough

  predicate HasId(entries: seq<Entry>, id: string) {
    exists i :: 0 <= i < |entries| && entries[i].id == id
  }

  ghost predicate UniqueIds(entries: seq<Entry>) {
    forall i, j :: 0 <= i < j < |entries| ==> entries[i].id != entries[j].id
  }

  function NonBlank(lines: seq<string>): seq<string> {
    if lines == [] then []
    else (if Blank(lines[0]) then [] else [lines[0]]) + NonBlank(lines[1..])
  }

  function LegacyLines(raw: string): seq<string> { NonBlank(Lines(raw)) }

  function LegacyId(index: nat): string { "legacy-jsonl-" + Decimal(index) }

  function FromLegacy(legacy: LegacyEntry, index: nat): Entry {
    Entry(LegacyId(index), Project, legacy.content, [], legacy.timestamp, legacy.timestamp)
  }

  /** The entries after the first `n` legacy lines; none when a line is malformed. */
  function Merge(entries: seq<Entry>, lines: seq<string>, n: nat,
                 parse: string -> Option<LegacyEntry>): Option<seq<Entry>>
    requires n <= |lines|
  {
    if n == 0 then Some(entries)
    else
      var before := Merge(entries, lines, n - 1, parse);
      if before.None? || HasId(before.value, LegacyId(n - 1)) then before
      else
        var legacy := parse(lines[n - 1]);
        if legacy.None? then None else Some(before.value + [FromLegacy(legacy.value, n - 1)])
  }

  function MergeAll(disk: Disk, parse: string -> Option<LegacyEntry>): Option<seq<Entry>>
    requires disk.legacy.Some?
  {
    Merge(disk.entries, LegacyLines(disk.legacy.value), |LegacyLines(disk.legacy.value)|, parse)
  }

  /** One opening of the store; says whether the migration came to its end. */
  function MigrateStep(disk: Disk, parse: string -> Option<LegacyEntry>, stop: Stop): (Disk, bool) {
    if disk.legacy.None? then (disk, true)
    else
      var merged := MergeAll(disk, parse);
      if merged.None? then (disk, false)
      else if merged.value != disk.entries && |merged.value| > MAX_MEMORY_ENTRIES then (disk, false)
      else match stop
        case BeforePublish => (disk, false)
        case AfterPublish => (disk.(entries := merged.value), false)
        case RunsThrough => (Disk(merged.value, None, disk.legacy), true)
  }

  predicate ValidInput(id: string, content: string, tags: seq<string>) {
    && !Blank(id) && Bytes(id) <= MAX_MEMORY_ID_LEN
    && Bytes(content) <= MAX_MEMORY_CONTENT_BYTES
    && |tags| <= MAX_MEMORY_TAGS
    && forall t :: t in tags ==> Bytes(t) <= MAX_MEMORY_TAG_LEN
  }

  /** An input is refused exactly for an id of nothing but white space, an id, a content or
      a tag that is too long in bytes, or too many tags. */
  lemma InputIsRefusedIff(id: string, content: string, tags: seq<string>)
    ensures !ValidInput(id, content, tags) <==>
            || (forall c :: c in id ==> IsWhitespace(c)) || Bytes(id) > 256 || Bytes(content) > 1_048_576
            || |tags| > 64 || exists i :: 0 <= i < |tags| && Bytes(tags[i]) > 128
  {
    if t :| t in tags && Bytes(t) > MAX_MEMORY_TAG_LEN {
      var i :| 0 <= i < |tags| && tags[i] == t;
    }
  }

  class Store {
    var disk: Disk

    ghost predicate Valid()
      reads this
    {
      UniqueIds(disk.entries)
    }

    /** Binds the store to the files as they are on disk. */
    constructor (disk: Disk)
      ensures this.disk == disk
    {
      this.disk := disk;
    }

    method MigrateLegacyJsonl(parse: string -> Option<LegacyEntry>, stop: Stop) returns (completed: bool)
      modifies this
      ensures (disk, completed) == MigrateStep(old(disk), parse, stop)
    {
      if disk.legacy.None? {
        return true;
      }
      var entries := disk.entries;
      var lines := LegacyLines(disk.legacy.value);
      var added := 0;
      for index := 0 to |lines|
        invariant disk == old(disk)
        invariant Merge(disk.entries, lines, index, parse) == Some(entries)
        invariant |entries| == |disk.entries| + added
        invariant added == 0 ==> entries == disk.entries
      {
        if !HasId(entries, LegacyId(index)) {
          var legacy := parse(lines[index]);
          if legacy.None? {
            MergeStaysNone(disk.entries, lines, index + 1, |lines|, parse);
            return false;
          }
          entries := entries + [FromLegacy(legacy.value, index)];
          added := added + 1;
        }
      }
      if added > 0 && |entries| > MAX_MEMORY_ENTRIES {
        return false;
      }
      if stop.BeforePublish? {
        return false;
      }
      if added > 0 {
        disk := disk.(entries := entries);
      }
      if stop.AfterPublish? {
        return false;
      }
      disk := disk.(legacy := None, archived := disk.legacy);
      completed := true;
    }

    method FindIndex(id: string) returns (index: nat)
      ensures index <= |disk.entries|
      ensures index < |disk.entries| <==> HasId(disk.entries, id)
      ensures index < |disk.entries| ==> disk.entries[index].id == id
    {
      index := 0;
      while index < |disk.entries| && disk.entries[index].id != id
        invariant index <= |disk.entries|
        invariant forall j :: 0 <= j < index ==> disk.entries[j].id != id
      {
        index := index + 1;
      }
    }

    /** Inserts or overwrites; an existing entry keeps its place and its creation time. */
    method Upsert(id: string, content: string, scope: Scope, tags: seq<string>, now: string, saved: bool)
      returns (r: Result<Entry, Error>)
      requires Valid()
      modifies this
      ensures Valid()
      ensures r.Err? ==> disk == old(disk)
      ensures disk.legacy == old(disk.legacy) && disk.archived == old(disk.archived)
      ensures r.Ok? <==>
              ValidInput(id, content, tags) && saved
              && (HasId(old(disk.entries), id) || |old(disk.entries)| < MAX_MEMORY_ENTRIES)
      ensures r.Ok? ==>
                Contents(disk.entries) == Contents(old(disk.entries))[id := r.value]
                && r.value == Entry(id, scope, content, tags,
                                    if HasId(old(disk.entries), id)
                                    then Contents(old(disk.entries))[id].createdAt else now, now)
      ensures r.Ok? ==> if HasId(old(disk.entries), id) then SameOrder(old(disk.entries), disk.entries)
                        else disk.entries == old(disk.entries) + [r.value]
    {
      if !ValidInput(id, content, tags) { return Err(InvalidInput); }
      var index := FindIndex(id);
      if index < |disk.entries| {
        ContentsAt(disk.entries, index);
        var entry := disk.entries[index].(content := content, tags := tags, scope := scope, updatedAt := now);
        if !saved { return Err(WriteFailed); }
        ContentsUpdate(disk.entries, index, entry);
        disk := disk.(entries := disk.entries[index := entry]);
        return Ok(entry);
      }
      if |disk.entries| >= MAX_MEMORY_ENTRIES { return Err(StoreFull); }
      var entry := Entry(id, scope, content, tags, now, now);
      if !saved { return Err(WriteFailed); }
      ContentsAppend(disk.entries, entry);
      disk := disk.(entries := disk.entries + [entry]);
      r := Ok(entry);
    }

    /** Changes the given fields of an existing entry, at least one, and nothing else. */
    method UpdatePartial(id: string, content: Option<string>, scope: Option<Scope>,
                         tags: Option<seq<string>>, now: string, saved: bool)
      returns (r: Result<Entry, Error>)
      requires Valid()
      modifies this
      ensures Valid()
      ensures r.Err? ==> disk == old(disk)
      ensures disk.legacy == old(disk.legacy) && disk.archived == old(disk.archived)
      ensures r.Ok? <==>
                && (content.Some? || scope.Some? || tags.Some?)
                && ValidInput(id, if content.Some? then content.value else "", if tags.Some? then tags.value else [])
                && HasId(old(disk.entries), id) && saved
      ensures r.Ok? ==>
                && SameOrder(old(disk.entries), disk.entries)
                && Contents(disk.entries) == Contents(old(disk.entries))[id := r.value]
                && (var before := Contents(old(disk.entries))[id];
                    r.value == Entry(id,
                                     if scope.Some? then scope.value else before.scope,
                                     if content.Some? then content.value else before.content,
                                     if tags.Some? then tags.value else before.tags,
                                     before.createdAt, now))
    {
      if content.None? && scope.None? && tags.None? { return Err(InvalidInput); }
      if !ValidInput(id, if content.Some? then content.value else "",
                     if tags.Some? then tags.value else []) { return Err(InvalidInput); }
      var index := FindIndex(id);
      if index == |disk.entries| { return Err(NotFound); }
      var entry := disk.entries[index];
      ContentsAt(disk.entries, index);
      if content.Some? { entry := entry.(content := content.value); }
      if scope.Some? { entry := entry.(scope := scope.value); }
      if tags.Some? { entry := entry.(tags := tags.value); }
      entry := entry.(updatedAt := now);
      if !saved { return Err(WriteFailed); }
      ContentsUpdate(disk.entries, index, entry);
      disk := disk.(entries := disk.entries[index := entry]);
      r := Ok(entry);
    }

    method Delete(id: string, saved: bool) returns (r: Result<bool, Error>)
      requires Valid()
      modifies this
      ensures Valid()
      ensures r == if !HasId(old(disk.entries), id) then Ok(false) else if saved then Ok(true) else Err(WriteFailed)
      ensures disk.legacy == old(disk.legacy) && disk.archived == old(disk.archived)
      ensures if r == Ok(true) then Contents(disk.entries) == Contents(old(disk.entries)) - {id}
              else disk == old(disk)
      ensures r == Ok(true) ==> exists i :: 0 <= i < |old(disk.entries)| && old(disk.entries)[i].id == id
                                            && disk.entries == WithoutIndex(old(disk.entries), i)
    {
      var index := FindIndex(id);
      if index == |disk.entries| { return Ok(false); }
      if !saved { return Err(WriteFailed); }
      ContentsRemove(disk.entries, index);
      disk := disk.(entries := WithoutIndex(disk.entries, index));
      r := Ok(true);
    }
  }

  // ---------------------------------------------------------------- the store as a map

  /** The same ids at the same places. */
  predicate SameOrder(a: seq<Entry>, b: seq<Entry>) {
    |a| == |b| && forall i :: 0 <= i < |a| ==> a[i].id == b[i].id
  }

  function Contents(entries: seq<Entry>): (m: map<string, Entry>)
    ensures forall id :: id in m <==> HasId(entries, id)
  {
    if entries == [] then map[]
    else
      var n := |entries| - 1;
      assert forall id :: HasId(entries, id) <==> HasId(entries[..n], id) || entries[n].id == id;
      Contents(entries[..n])[entries[n].id := entries[n]]
  }

  lemma {:induction false} ContentsAt(entries: seq<Entry>, i: nat)
    requires UniqueIds(entries) && i < |entries|
    ensures Contents(entries)[entries[i].id] == entries[i]
  {
    var n := |entries| - 1;
    if i < n {
      ContentsAt(entries[..n], i);
      assert entries[i].id != entries[n].id;
    }
  }

  lemma ContentsIs(entries: seq<Entry>, m: map<string, Entry>)
    requires UniqueIds(entries)
    requires forall i :: 0 <= i < |entries| ==> entries[i].id in m && m[entries[i].id] == entries[i]
    requires forall id :: id in m ==> HasId(entries, id)
    ensures Contents(entries) == m
  {
    forall id | id in m ensures id in Contents(entries) && Contents(entries)[id] == m[id] {
      var i :| 0 <= i < |entries| && entries[i].id == id;
      ContentsAt(entries, i);
    }
  }

  lemma ContentsUpdate(entries: seq<Entry>, i: nat, e: Entry)
    requires UniqueIds(entries) && i < |entries| && e.id == entries[i].id
    ensures UniqueIds(entries[i := e])
    ensures Contents(entries[i := e]) == Contents(entries)[e.id := e]
  {
    var after := entries[i := e];
    forall j | 0 <= j < |after| && j != i ensures Contents(entries)[after[j].id] == after[j] && after[j].id != e.id {
      ContentsAt(entries, j);
    }
    forall id | id in Contents(entries)[e.id := e] ensures HasId(after, id) {
      var j :| 0 <= j < |entries| && entries[j].id == id;
      assert after[j].id == id;
    }
    ContentsIs(after, Contents(entries)[e.id := e]);
  }

  lemma ContentsAppend(entries: seq<Entry>, e: Entry)
    requires UniqueIds(entries) && !HasId(entries, e.id)
    ensures UniqueIds(entries + [e])
    ensures Contents(entries + [e]) == Contents(entries)[e.id := e]
  {
    assert (entries + [e])[..|entries|] == entries;
  }

  function WithoutIndex(entries: seq<Entry>, i: nat): (r: seq<Entry>)
    requires i < |entries|
    ensures |r| == |entries| - 1
    ensures forall j :: 0 <= j < |r| ==> r[j] == entries[if j < i then j else j + 1]
  {
    entries[..i] + entries[i + 1..]
  }

  lemma RemovedEntriesStay(entries: seq<Entry>, i: nat, j: nat)
    requires UniqueIds(entries) && i < |entries| && j < |entries| - 1
    ensures var e := WithoutIndex(entries, i)[j];
            e.id != entries[i].id && e.id in Contents(entries) && Contents(entries)[e.id] == e
  {
    var k := if j < i then j else j + 1;
    ContentsAt(entries, k);
    assert entries[k].id == WithoutIndex(entries, i)[j].id;
  }

  lemma WithoutIndexUnique(entries: seq<Entry>, i: nat)
    requires UniqueIds(entries) && i < |entries|
    ensures UniqueIds(WithoutIndex(entries, i))
  {
  }

  lemma ContentsRemove(entries: seq<Entry>, i: nat)
    requires UniqueIds(entries) && i < |entries|
    ensures UniqueIds(WithoutIndex(entries, i))
    ensures Contents(WithoutIndex(entries, i)) == Contents(entries) - {entries[i].id}
  {
    var after := WithoutIndex(entries, i);
    var rest := Contents(entries) - {entries[i].id};
    WithoutIndexUnique(entries, i);
    forall j | 0 <= j < |after| ensures after[j].id in rest && rest[after[j].id] == after[j] {
      RemovedEntriesStay(entries, i, j);
    }
    forall id | id in rest ensures HasId(after, id) {
      HasIdElsewhere(entries, i, id);
    }
    ContentsIs(after, rest);
  }

  lemma HasIdElsewhere(entries: seq<Entry>, i: nat, id: string)
    requires i < |entries| && HasId(entries, id) && entries[i].id != id
    ensures HasId(WithoutIndex(entries, i), id)
  {
    var k :| 0 <= k < |entries| && entries[k].id == id;
    assert WithoutIndex(entries, i)[if k < i then k else k - 1].id == id;
  }

  // ---------------------------------------------------------------- the migration

  lemma LegacyIdsDiffer(i: nat, j: nat)
    requires i != j
    ensures LegacyId(i) != LegacyId(j)
  {
    DecimalRoundTrip(i);
    DecimalRoundTrip(j);
    var prefix := "legacy-jsonl-";
    assert LegacyId(i)[|prefix|..] == Decimal(i) && LegacyId(j)[|prefix|..] == Decimal(j);
  }

  lemma {:induction false} MergeStaysNone(entries: seq<Entry>, lines: seq<string>, n: nat, m: nat,
                                          parse: string -> Option<LegacyEntry>)
    requires n <= m <= |lines| && Merge(entries, lines, n, parse).None?
    ensures Merge(entries, lines, m, parse).None?
  {
    if n < m { MergeStaysNone(entries, lines, n, m - 1, parse); }
  }

  /** What the merged list is: the old entries, then new ones under legacy ids, so that
      every legacy id up to `n` is present. */
  lemma {:induction false} MergeShape(entries: seq<Entry>, lines: seq<string>, n: nat,
                                      parse: string -> Option<LegacyEntry>)
    requires n <= |lines| && Merge(entries, lines, n, parse).Some?
    ensures var merged := Merge(entries, lines, n, parse).value;
            && entries <= merged
            && (forall i :: 0 <= i < n ==> HasId(merged, LegacyId(i)))
            && (forall k :: |entries| <= k < |merged| ==> exists i :: 0 <= i < n && merged[k].id == LegacyId(i))
            && (UniqueIds(entries) ==> UniqueIds(merged))
  {
    if n > 0 {
      MergeShape(entries, lines, n - 1, parse);
      var before := Merge(entries, lines, n - 1, parse).value;
      var merged := Merge(entries, lines, n, parse).value;
      forall i | 0 <= i < n ensures HasId(merged, LegacyId(i)) {
        if i < n - 1 || HasId(before, LegacyId(i)) {
          var k :| 0 <= k < |before| && before[k].id == LegacyId(i);
          assert merged[k].id == LegacyId(i);
        } else {
          assert merged[|before|].id == LegacyId(i);
        }
      }
    }
  }

  /** The first `n` lines do not bring in the id of a later line. */
  lemma MergeBringsNoLaterId(entries: seq<Entry>, lines: seq<string>, n: nat,
                             parse: string -> Option<LegacyEntry>)
    requires n <= |lines| && Merge(entries, lines, n, parse).Some?
    ensures HasId(Merge(entries, lines, n, parse).value, LegacyId(n)) <==> HasId(entries, LegacyId(n))
  {
    MergeShape(entries, lines, n, parse);
    var merged := Merge(entries, lines, n, parse).value;
    if k :| 0 <= k < |entries| && entries[k].id == LegacyId(n) {
      assert merged[k].id == LegacyId(n);
    } else if k :| 0 <= k < |merged| && merged[k].id == LegacyId(n) {
      assert merged[..|entries|] == entries;
      var i :| 0 <= i < n && merged[k].id == LegacyId(i);
      LegacyIdsDiffer(i, n);
    }
  }

  /** Merging again adds nothing. */
  lemma {:induction false} MergeAgain(entries: seq<Entry>, lines: seq<string>, n: nat,
                                      parse: string -> Option<LegacyEntry>)
    requires n <= |lines| && forall i :: 0 <= i < n ==> HasId(entries, LegacyId(i))
    ensures Merge(entries, lines, n, parse) == Some(entries)
  {
    if n > 0 { MergeAgain(entries, lines, n - 1, parse); }
  }

  /** The disk after any number of attempts that stop where they are told to. */
  function AfterAttempts(disk: Disk, parse: string -> Option<LegacyEntry>, stops: seq<Stop>): Disk {
    if stops == [] then disk
    else MigrateStep(AfterAttempts(disk, parse, stops[..|stops| - 1]), parse, stops[|stops| - 1]).0
  }

  /** Between attempts the disk is untouched, published, or done. */
  lemma {:induction false} AttemptsReach(disk: Disk, parse: string -> Option<LegacyEntry>, stops: seq<Stop>)
    requires disk.legacy.Some?
    ensures var end := AfterAttempts(disk, parse, stops);
            || end == disk
            || (MergeAll(disk, parse).Some? &&
                (end == disk.(entries := MergeAll(disk, parse).value)
                 || end == Disk(MergeAll(disk, parse).value, None, disk.legacy)))
  {
    if stops != [] {
      AttemptsReach(disk, parse, stops[..|stops| - 1]);
      var lines := LegacyLines(disk.legacy.value);
      if MergeAll(disk, parse).Some? {
        MergeShape(disk.entries, lines, |lines|, parse);
        MergeAgain(MergeAll(disk, parse).value, lines, |lines|, parse);
      }
    }
  }

  /** The records of all legacy lines, in order. */
  function Records(lines: seq<string>, n: nat, parse: string -> Option<LegacyEntry>): seq<Entry>
    requires n <= |lines| && forall i :: 0 <= i < n ==> parse(lines[i]).Some?
  {
    if n == 0 then [] else Records(lines, n - 1, parse) + [FromLegacy(parse(lines[n - 1]).value, n - 1)]
  }

  predicate Collides(entries: seq<Entry>, n: nat) {
    exists i :: 0 <= i < n && HasId(entries, LegacyId(i))
  }

  lemma {:induction false} MergeWithoutCollision(entries: seq<Entry>, lines: seq<string>, n: nat,
                                                 parse: string -> Option<LegacyEntry>)
    requires n <= |lines| && (forall i :: 0 <= i < n ==> parse(lines[i]).Some?)
    ensures Merge(entries, lines, n, parse).Some?
    ensures |Merge(entries, lines, n, parse).value| <= |entries| + n
    ensures Collides(entries, n) ==> |Merge(entries, lines, n, parse).value| < |entries| + n
    ensures !Collides(entries, n) ==> Merge(entries, lines, n, parse).value == entries + Records(lines, n, parse)
    ensures |Records(lines, n, parse)| == n
  {
    if n > 0 {
      MergeWithoutCollision(entries, lines, n - 1, parse);
      MergeBringsNoLaterId(entries, lines, n - 1, parse);
      CollidesNext(entries, n);
    }
  }

  lemma CollidesNext(entries: seq<Entry>, n: nat)
    requires n > 0
    ensures Collides(entries, n) <==> Collides(entries, n - 1) || HasId(entries, LegacyId(n - 1))
  {
  }

  /** Exactly once, under any number of crashes: when an attempt runs through and completes
      after any others, the legacy file is archived, and the store holds the old entries
      followed by one record per non-blank legacy line, in order, exactly when no old entry
      had taken one of the legacy ids. */
  lemma MigrationIsExactlyOnce(disk: Disk, parse: string -> Option<LegacyEntry>, stops: seq<Stop>)
    requires disk.legacy.Some?
    requires var lines := LegacyLines(disk.legacy.value);
             forall i :: 0 <= i < |lines| ==> parse(lines[i]).Some?
    requires MigrateStep(AfterAttempts(disk, parse, stops), parse, RunsThrough).1
    ensures var lines := LegacyLines(disk.legacy.value);
            var end := MigrateStep(AfterAttempts(disk, parse, stops), parse, RunsThrough).0;
            && end.legacy == None && end.archived == disk.legacy
            && (end.entries == disk.entries + Records(lines, |lines|, parse)
                <==> !Collides(disk.entries, |lines|))
  {
    var lines := LegacyLines(disk.legacy.value);
    AttemptsReach(disk, parse, stops);
    MergeWithoutCollision(disk.entries, lines, |lines|, parse);
    MergeShape(disk.entries, lines, |lines|, parse);
    MergeAgain(MergeAll(disk, parse).value, lines, |lines|, parse);
  }

  // ---------------------------------------------------------------- what a migrated entry holds

  /** The line numbers of the non-blank lines, in order. */
  function LineNumbers(lines: seq<string>, n: nat): (numbers: seq<nat>)
    requires n <= |lines|
    ensures forall i, j :: 0 <= i < j < |numbers| ==> numbers[i] < numbers[j]
    ensures forall i :: 0 <= i < |numbers| ==> numbers[i] < n
    ensures forall k :: 0 <= k < n ==> (k in numbers <==> exists c :: c in lines[k] && !IsWhitespace(c))
  {
    if n == 0 then []
    else
      var before := LineNumbers(lines, n - 1);
      if forall c :: c in lines[n - 1] ==> IsWhitespace(c) then before else before + [n - 1]
  }

  lemma {:induction false} NonBlankAppend(lines: seq<string>, x: string)
    ensures NonBlank(lines + [x]) == NonBlank(lines) + if Blank(x) then [] else [x]
  {
    if lines == [] {
      assert [] + [x] == [x] && [x][1..] == [];
    } else {
      NonBlankAppend(lines[1..], x);
      assert (lines + [x])[1..] == lines[1..] + [x] && (lines + [x])[0] == lines[0];
      var first := if Blank(lines[0]) then [] else [lines[0]];
      var last := if Blank(x) then [] else [x];
      assert first + (NonBlank(lines[1..]) + last) == (first + NonBlank(lines[1..])) + last;
    }
  }

  lemma {:induction false} NonBlankIsExact(lines: seq<string>, n: nat)
    requires n <= |lines|
    ensures var numbers := LineNumbers(lines, n);
            |NonBlank(lines[..n])| == |numbers|
            && forall i :: 0 <= i < |numbers| ==> NonBlank(lines[..n])[i] == lines[numbers[i]]
  {
    if n > 0 {
      NonBlankIsExact(lines, n - 1);
      assert lines[..n] == lines[..n - 1] + [lines[n - 1]];
      NonBlankAppend(lines[..n - 1], lines[n - 1]);
    }
  }

  /** The legacy lines are the lines of the text that have something but white space, in
      their order. */
  lemma LegacyLinesAreExact(raw: string)
    ensures var lines, numbers := Lines(raw), LineNumbers(Lines(raw), |Lines(raw)|);
            |LegacyLines(raw)| == |numbers|
            && forall i :: 0 <= i < |numbers| ==> LegacyLines(raw)[i] == lines[numbers[i]]
  {
    NonBlankIsExact(Lines(raw), |Lines(raw)|);
    assert Lines(raw)[..|Lines(raw)|] == Lines(raw);
  }

  /** An entry that holds a legacy record: its content, created and updated at its time. */
  predicate HoldsLegacy(e: Entry, i: nat, legacy: LegacyEntry) {
    && e.id == "legacy-jsonl-" + Decimal(i) && e.scope == Project && e.tags == []
    && e.content == legacy.content && e.createdAt == legacy.timestamp && e.updatedAt == legacy.timestamp
  }

  lemma {:induction false} RecordsHold(lines: seq<string>, n: nat, parse: string -> Option<LegacyEntry>, i: nat)
    requires i < n <= |lines| && forall j :: 0 <= j < n ==> parse(lines[j]).Some?
    ensures |Records(lines, n, parse)| == n
    ensures HoldsLegacy(Records(lines, n, parse)[i], i, parse(lines[i]).value)
  {
    if n == 1 {
      assert Records(lines, 0, parse) == [];
    } else if i < n - 1 {
      RecordsHold(lines, n - 1, parse, i);
    } else {
      RecordsHold(lines, n - 1, parse, n - 2);
    }
  }

  lemma {:induction false} MergeHolds(entries: seq<Entry>, lines: seq<string>, n: nat,
                                      parse: string -> Option<LegacyEntry>, i: nat)
    requires i < n <= |lines| && Merge(entries, lines, n, parse).Some? && !HasId(entries, LegacyId(i))
    ensures var merged := Merge(entries, lines, n, parse).value;
            && entries <= merged && parse(lines[i]).Some?
            && exists k :: |entries| <= k < |merged| && HoldsLegacy(merged[k], i, parse(lines[i]).value)
  {
    MergeShape(entries, lines, n, parse);
    var before, merged := Merge(entries, lines, n - 1, parse).value, Merge(entries, lines, n, parse).value;
    MergeShape(entries, lines, n - 1, parse);
    if i < n - 1 {
      MergeHolds(entries, lines, n - 1, parse, i);
      var k :| |entries| <= k < |before| && HoldsLegacy(before[k], i, parse(lines[i]).value);
      assert merged[k] == before[k];
    } else {
      MergeBringsNoLaterId(entries, lines, i, parse);
      assert HoldsLegacy(merged[|before|], i, parse(lines[i]).value);
    }
  }

  /** Whatever attempts came before, a completed one ends in the merge of the old entries. */
  lemma CompletedEntries(disk: Disk, parse: string -> Option<LegacyEntry>, stops: seq<Stop>)
    requires disk.legacy.Some? && MigrateStep(AfterAttempts(disk, parse, stops), parse, RunsThrough).1
    ensures
      Some(MigrateStep(AfterAttempts(disk, parse, stops), parse, RunsThrough).0.entries) == MergeAll(disk, parse)
  {
    var lines := LegacyLines(disk.legacy.value);
    AttemptsReach(disk, parse, stops);
    hide AfterAttempts;
    if MergeAll(disk, parse).Some? {
      MergeShape(disk.entries, lines, |lines|, parse);
      MergeAgain(MergeAll(disk, parse).value, lines, |lines|, parse);
    }
  }

  /** A completed migration keeps the old entries in front, and for every legacy line whose
      id no old entry had taken there is an entry that holds what the line held. Without a
      taken id these are the further entries, in the order of the lines. */
  lemma MigratedEntriesHoldTheirLines(disk: Disk, parse: string -> Option<LegacyEntry>, stops: seq<Stop>, i: nat)
    requires disk.legacy.Some? && i < |LegacyLines(disk.legacy.value)|
    requires var lines := LegacyLines(disk.legacy.value);
             forall j :: 0 <= j < |lines| ==> parse(lines[j]).Some?
    requires MigrateStep(AfterAttempts(disk, parse, stops), parse, RunsThrough).1
    ensures var lines := LegacyLines(disk.legacy.value);
            var entries := MigrateStep(AfterAttempts(disk, parse, stops), parse, RunsThrough).0.entries;
            var legacy := parse(lines[i]).value;
            && disk.entries <= entries
            && (!HasId(disk.entries, LegacyId(i)) ==>
                  exists k :: |disk.entries| <= k < |entries| && HoldsLegacy(entries[k], i, legacy))
            && (!Collides(disk.entries, |lines|) ==>
                  |entries| == |disk.entries| + |lines| && HoldsLegacy(entries[|disk.entries| + i], i, legacy))
  {
    var lines := LegacyLines(disk.legacy.value);
    hide LegacyLines, HoldsLegacy, Collides, Records, HasId, LegacyId, AfterAttempts, Merge, MigrateStep;
    MigrationIsExactlyOnce(disk, parse, stops);
    CompletedEntries(disk, parse, stops);
    MergeShape(disk.entries, lines, |lines|, parse);
    RecordsHold(lines, |lines|, parse, i);
    if !HasId(disk.entries, LegacyId(i)) { MergeHolds(disk.entries, lines, |lines|, parse, i); }
  }

  /** The merge fails exactly on a malformed line whose id is not in the store yet. */
  lemma {:induction false} MergeFailsIff(entries: seq<Entry>, lines: seq<string>, n: nat,
                                         parse: string -> Option<LegacyEntry>)
    requires n <= |lines|
    ensures Merge(entries, lines, n, parse).None? <==>
            exists i :: 0 <= i < n && parse(lines[i]).None? && !HasId(entries, LegacyId(i))
  {
    if n > 0 {
      MergeFailsIff(entries, lines, n - 1, parse);
      if Merge(entries, lines, n - 1, parse).Some? {
        MergeBringsNoLaterId(entries, lines, n - 1, parse);
      }
    }
  }

  /** Fail closed: with such a line no attempt changes either file or completes. */
  lemma MalformedLineChangesNothing(disk: Disk, parse: string -> Option<LegacyEntry>, stop: Stop, i: nat)
    requires disk.legacy.Some? && i < |LegacyLines(disk.legacy.value)|
    requires parse(LegacyLines(disk.legacy.value)[i]).None? && !HasId(disk.entries, LegacyId(i))
    ensures MigrateStep(disk, parse, stop) == (disk, false)
  {
    MergeFailsIff(disk.entries, LegacyLines(disk.legacy.value), |LegacyLines(disk.legacy.value)|, parse);
  }

  /** The first `n` legacy ids that no old entry has. */
  function Untaken(entries: seq<Entry>, n: nat): nat {
    if n == 0 then 0 else Untaken(entries, n - 1) + if HasId(entries, LegacyId(n - 1)) then 0 else 1
  }

  lemma {:induction false} MergeAdds(entries: seq<Entry>, lines: seq<string>, n: nat,
                                     parse: string -> Option<LegacyEntry>)
    requires n <= |lines| && Merge(entries, lines, n, parse).Some?
    ensures |Merge(entries, lines, n, parse).value| == |entries| + Untaken(entries, n)
  {
    if n > 0 {
      MergeAdds(entries, lines, n - 1, parse);
      MergeBringsNoLaterId(entries, lines, n - 1, parse);
    }
  }

  /** An attempt that is not interrupted completes exactly when there is nothing to migrate,
      or every line with an untaken id parses and the new entries, if any, fit. */
  lemma MigrationCompletesIff(disk: Disk, parse: string -> Option<LegacyEntry>)
    ensures MigrateStep(disk, parse, RunsThrough).1 <==>
            disk.legacy == None ||
            (var lines := LegacyLines(disk.legacy.value);
             && (forall i :: 0 <= i < |lines| && !HasId(disk.entries, LegacyId(i)) ==> parse(lines[i]).Some?)
             && (|| Untaken(disk.entries, |lines|) == 0
                 || |disk.entries| + Untaken(disk.entries, |lines|) <= MAX_MEMORY_ENTRIES))
  {
    if disk.legacy.Some? {
      var lines := LegacyLines(disk.legacy.value);
      MergeFailsIff(disk.entries, lines, |lines|, parse);
      if MergeAll(disk, parse).Some? {
        MergeAdds(disk.entries, lines, |lines|, parse);
        MergeShape(disk.entries, lines, |lines|, parse);
      }
    }
  }
}

/**
 * The numbered SQL migration runner. Every runner reads the ledger once, filters the sorted directory
 * by what it read, and then runs one transaction per pending file: the body, then the ledger row.
 * The list can be stale by the time it is used; the primary key of the ledger is the only guard.
 */
module MigrationRunner {
  import opened Wrappers
  import opened Text
  import opened Sorting

  const BASELINE_MIGRATION_VERSION := 21
  const FIRST_TRACKED_MIGRATION_VERSION := BASELINE_MIGRATION_VERSION + 1

  datatype MigrationFile = MigrationFile(version: nat, filename: string)

  // ---- the directory ----

  predicate IsLineTerminator(c: char) {
    c == '\n' || c == '\r' || c == '\U{2028}' || c == '\U{2029}'
  }

  /** `/^(\d{4})_.+\.sql$/` and the number it captures. */
  function ParseMigrationFilename(filename: string): Option<nat> {
    var n := |filename|;
    if && n >= 10
       && AllDigits(filename[..4])
       && filename[4] == '_'
       && (forall i :: 5 <= i < n - 4 ==> !IsLineTerminator(filename[i]))
       && filename[n - 4..] == ".sql"
    then Some(NumberOf(filename[..4]))
    else None
  }

  /** Every four-digit number, name and `.sql` extension is recognised and read back. */
  lemma MigrationFilenameRoundTrip(version: nat, name: string)
    requires version < 10000 && name != ""
    requires forall i :: 0 <= i < |name| ==> !IsLineTerminator(name[i])
    ensures ParseMigrationFilename(Digits(version, 4) + "_" + name + ".sql") == Some(version)
  {
    var filename := Digits(version, 4) + "_" + name + ".sql";
    assert Pow10(4) == 10 * (10 * (10 * (10 * Pow10(0))));
    NumberOfDigits(version, 4);
    assert filename[..4] == Digits(version, 4);
    assert filename[|filename| - 4..] == ".sql";
    forall i | 5 <= i < |filename| - 4
      ensures !IsLineTerminator(filename[i])
    {
      assert filename[i] == name[i - 5];
    }
  }

  /** The text `name` between the version and the extension: not empty, and on one line. */
  predicate Spells(filename: string, version: nat, name: string) {
    && version < 10000 && name != ""
    && (forall i :: 0 <= i < |name| ==> name[i] !in {'\n', '\r', '\U{2028}', '\U{2029}'})
    && filename == Digits(version, 4) + "_" + name + ".sql"
  }

  /** A file name is recognised exactly when it is four digits, an underscore, a name and `.sql`. */
  lemma MigrationFilenameExact(filename: string, version: nat)
    ensures ParseMigrationFilename(filename) == Some(version) <==> exists name :: Spells(filename, version, name)
  {
    if ParseMigrationFilename(filename) == Some(version) {
      var name := filename[5..|filename| - 4];
      DigitsOfNumber(filename[..4]);
      assert Pow10(4) == 10 * (10 * (10 * (10 * Pow10(0))));
      assert filename == filename[..4] + "_" + name + ".sql";
      assert forall i :: 0 <= i < |name| ==> name[i] == filename[5 + i];
      assert Spells(filename, version, name);
    }
    if name :| Spells(filename, version, name) {
      MigrationFilenameRoundTrip(version, name);
    }
  }

  /** Tracked are the recognised names from version 22 on. */
  lemma TrackedFrom22(filename: string)
    ensures IsTracked(filename) <==> exists version: nat, name :: 22 <= version && Spells(filename, version, name)
  {
    var parsed := ParseMigrationFilename(filename);
    if parsed.Some? {
      MigrationFilenameExact(filename, parsed.value);
      var name :| Spells(filename, parsed.value, name);
    }
    if version: nat, name :| 22 <= version && Spells(filename, version, name) {
      MigrationFilenameExact(filename, version);
    }
  }

  predicate IsTracked(filename: string) {
    var version := ParseMigrationFilename(filename);
    version.Some? && version.value >= FIRST_TRACKED_MIGRATION_VERSION
  }

  /** A tracked name with the version it spells. */
  predicate IsFileOf(file: MigrationFile) {
    IsTracked(file.filename) && ParseMigrationFilename(file.filename) == Some(file.version)
  }

  function Tracked(entries: seq<string>): seq<MigrationFile> {
    if entries == [] then []
    else
      var last := entries[|entries| - 1];
      var front := Tracked(entries[..|entries| - 1]);
      if IsTracked(last) then front + [MigrationFile(ParseMigrationFilename(last).value, last)] else front
  }

  /** `(a, b) => a.version - b.version` */
  function CompareVersions(a: MigrationFile, b: MigrationFile): int {
    a.version - b.version
  }

  function SortByVersion(files: seq<MigrationFile>): seq<MigrationFile> {
    Sort(files, CompareVersions)
  }

  predicate SortedByVersion(files: seq<MigrationFile>) {
    forall i, j :: 0 <= i < j < |files| ==> files[i].version <= files[j].version
  }

  /** The tracked files come out by version, and files of one version in directory order. */
  lemma TrackedFilesSorted(entries: seq<string>, file: MigrationFile)
    ensures SortedByVersion(SortByVersion(Tracked(entries)))
    ensures file in SortByVersion(Tracked(entries))
      <==> file.filename in entries && IsFileOf(file)
    ensures Ties(SortByVersion(Tracked(entries)), file, CompareVersions)
      == Ties(Tracked(entries), file, CompareVersions)
  {
    SortIsStable(Tracked(entries), file, CompareVersions);
    SortKeepsItems(Tracked(entries), CompareVersions);
    TrackedFiles(entries, file);
    assert forall a, b :: CompareVersions(a, b) <= 0 <==> a.version <= b.version;
  }

  lemma {:induction false} TrackedFiles(entries: seq<string>, file: MigrationFile)
    ensures file in Tracked(entries)
      <==> file.filename in entries && IsFileOf(file)
  {
    if entries != [] {
      var n := |entries| - 1;
      TrackedFiles(entries[..n], file);
      assert entries == entries[..n] + [entries[n]];
    }
  }

  method ListTrackedMigrationFiles(entries: seq<string>) returns (files: seq<MigrationFile>)
    ensures files == SortByVersion(Tracked(entries))
  {
    files := [];
    for i := 0 to |entries|
      invariant files == Tracked(entries[..i])
    {
      var version := ParseMigrationFilename(entries[i]);
      assert entries[..i + 1][..i] == entries[..i];
      if version.None? || version.value < FIRST_TRACKED_MIGRATION_VERSION {
        continue;
      }
      files := files + [MigrationFile(version.value, entries[i])];
    }
    assert entries[..|entries|] == entries;
    files := SortByVersion(files);
  }

  // ---- the pending list ----

  function Versions(files: seq<MigrationFile>): set<nat> {
    set file | file in files :: file.version
  }

  /** `files.filter((file) => !applied.has(file.version))` */
  function Pending(files: seq<MigrationFile>, applied: set<nat>): seq<MigrationFile> {
    if files == [] then []
    else if files[0].version in applied then Pending(files[1..], applied)
    else [files[0]] + Pending(files[1..], applied)
  }

  /** The first file of each version not in `seen`: the only files whose body can ever commit. */
  function FirstPerVersion(files: seq<MigrationFile>, seen: set<nat>): seq<MigrationFile> {
    if files == [] then []
    else if files[0].version in seen then FirstPerVersion(files[1..], seen)
    else [files[0]] + FirstPerVersion(files[1..], seen + {files[0].version})
  }

  /** What a directory's committed migrations can be: a prefix of this sequence. */
  function Schedule(files: seq<MigrationFile>): seq<MigrationFile> {
    FirstPerVersion(files, {})
  }

  predicate DistinctVersions(files: seq<MigrationFile>) {
    forall i, j :: 0 <= i < j < |files| ==> files[i].version != files[j].version
  }

  function FirstMissing(files: seq<MigrationFile>, applied: set<nat>): Option<MigrationFile> {
    if files == [] then None
    else if files[0].version in applied then FirstMissing(files[1..], applied)
    else Some(files[0])
  }

  /** A stale list is harmless: past entries already in the ledger, it offers the first missing file. */
  lemma {:induction false} StaleListOffersFirstMissing(files: seq<MigrationFile>, applied: set<nat>, ledger: set<nat>,
                                                       next: nat)
    requires applied <= ledger
    requires next < |Pending(files, applied)|
    requires forall j :: 0 <= j < next ==> Pending(files, applied)[j].version in ledger
    requires Pending(files, applied)[next].version !in ledger
    ensures FirstMissing(files, ledger) == Some(Pending(files, applied)[next])
  {
    if files[0].version in applied {
      StaleListOffersFirstMissing(files[1..], applied, ledger, next);
    } else if next > 0 {
      assert Pending(files, applied)[0] == files[0];
      forall j | 0 <= j < next - 1
        ensures Pending(files[1..], applied)[j].version in ledger
      {
        assert Pending(files[1..], applied)[j] == Pending(files, applied)[j + 1];
      }
      StaleListOffersFirstMissing(files[1..], applied, ledger, next - 1);
    }
  }

  lemma {:induction false} ScheduleIsFirstMissing(files: seq<MigrationFile>, seen: set<nat>, k: nat)
    requires k <= |FirstPerVersion(files, seen)|
    ensures var schedule := FirstPerVersion(files, seen);
      FirstMissing(files, seen + Versions(schedule[..k])) == if k < |schedule| then Some(schedule[k]) else None
  {
    if files != [] {
      var schedule := FirstPerVersion(files, seen);
      if files[0].version in seen {
        ScheduleIsFirstMissing(files[1..], seen, k);
      } else if k > 0 {
        var seen' := seen + {files[0].version};
        var rest := FirstPerVersion(files[1..], seen');
        ScheduleIsFirstMissing(files[1..], seen', k - 1);
        assert schedule[..k] == [files[0]] + rest[..k - 1];
        assert seen + Versions(schedule[..k]) == seen' + Versions(rest[..k - 1]);
      } else {
        assert seen + Versions(schedule[..0]) == seen;
      }
    }
  }

  lemma VersionsOfCons(file: MigrationFile, files: seq<MigrationFile>)
    ensures Versions([file] + files) == {file.version} + Versions(files)
  {
    var all := [file] + files;
    assert file == all[0] && all[1..] == files;
    forall f | f in files
      ensures f in all
    {
      assert f in all[1..];
    }
  }

  /** The schedule has the first file of every version of the directory. */
  lemma {:induction false} ScheduleVersions(files: seq<MigrationFile>, seen: set<nat>)
    ensures Versions(FirstPerVersion(files, seen)) == Versions(files) - seen
    ensures DistinctVersions(FirstPerVersion(files, seen))
  {
    if files != [] {
      var rest := files[1..];
      assert files == [files[0]] + rest;
      VersionsOfCons(files[0], rest);
      if files[0].version in seen {
        ScheduleVersions(rest, seen);
      } else {
        var tail := FirstPerVersion(rest, seen + {files[0].version});
        ScheduleVersions(rest, seen + {files[0].version});
        VersionsOfCons(files[0], tail);
        forall i | 0 <= i < |tail|
          ensures tail[i].version != files[0].version
        {
          assert tail[i].version in Versions(tail);
        }
      }
    }
  }

  /** The schedule keeps the directory's order. */
  lemma {:induction false} ScheduleSorted(files: seq<MigrationFile>, seen: set<nat>)
    requires SortedByVersion(files)
    ensures SortedByVersion(FirstPerVersion(files, seen))
    ensures forall file :: file in FirstPerVersion(files, seen) ==> file in files
  {
    if files != [] {
      var rest := files[1..];
      if files[0].version in seen {
        ScheduleSorted(rest, seen);
      } else {
        var tail := FirstPerVersion(rest, seen + {files[0].version});
        ScheduleSorted(rest, seen + {files[0].version});
        forall i | 0 <= i < |tail|
          ensures files[0].version <= tail[i].version
        {
          assert tail[i] in rest;
        }
      }
    }
  }

  lemma DistinctAfterFirst(files: seq<MigrationFile>)
    requires files != []
    ensures DistinctVersions(files) <==> files[0].version !in Versions(files[1..]) && DistinctVersions(files[1..])
  {
    var rest := files[1..];
    if DistinctVersions(files) {
      forall file | file in rest
        ensures file.version != files[0].version
      {
        var k :| 0 <= k < |rest| && rest[k] == file;
        assert files[k + 1] == file;
      }
      forall i, j | 0 <= i < j < |rest|
        ensures rest[i].version != rest[j].version
      {
        assert rest[i] == files[i + 1] && rest[j] == files[j + 1];
      }
    } else if files[0].version !in Versions(rest) {
      var i, j :| 0 <= i < j < |files| && files[i].version == files[j].version;
      assert files[j] == rest[j - 1] && rest[j - 1] in rest;
      assert i > 0 ==> files[i] == rest[i - 1];
    }
  }

  /** With distinct versions nothing is skipped; with a repeated version the later file can never commit. */
  lemma {:induction false} ScheduleIsAllFiles(files: seq<MigrationFile>, seen: set<nat>)
    requires Versions(files) !! seen
    ensures FirstPerVersion(files, seen) == files <==> DistinctVersions(files)
    ensures |FirstPerVersion(files, seen)| <= |files|
    decreases |files|
  {
    if files != [] {
      var rest, v := files[1..], files[0].version;
      assert files == [files[0]] + rest;
      assert v in Versions(files) && Versions(rest) <= Versions(files);
      if v in Versions(rest) {
        var k :| 0 <= k < |rest| && rest[k].version == v;
        assert files[k + 1].version == files[0].version;
        var tail := FirstPerVersion(rest, seen + {v});
        FirstPerVersionAvoids(rest, seen + {v});
        FirstPerVersionShorter(rest, seen + {v});
        if |tail| == |rest| {
          assert tail[k] != rest[k];
        }
        assert FirstPerVersion(files, seen)[1..] == tail;
      } else {
        ScheduleIsAllFiles(rest, seen + {v});
        DistinctAfterFirst(files);
      }
    }
  }

  lemma FirstPerVersionAvoids(files: seq<MigrationFile>, seen: set<nat>)
    ensures forall i :: 0 <= i < |FirstPerVersion(files, seen)| ==> FirstPerVersion(files, seen)[i].version !in seen
  {
  }

  lemma FirstPerVersionShorter(files: seq<MigrationFile>, seen: set<nat>)
    ensures |FirstPerVersion(files, seen)| <= |files|
  {
  }

  // ---- any number of runners ----

  /** A runner: not running, or at entry `next` of its pending list, possibly inside that entry's transaction. */
  datatype Runner =
    | Stopped
    | Working(applied: set<nat>, pending: seq<MigrationFile>, next: nat)
    | InTransaction(applied: set<nat>, pending: seq<MigrationFile>, next: nat,
                    bodies: seq<MigrationFile>, rows: seq<MigrationFile>)

  /** What is committed (executed bodies and ledger rows, in commit order) and the runners. */
  datatype System = System(bodies: seq<MigrationFile>, ledger: seq<MigrationFile>, runners: seq<Runner>)

  datatype Event =
    | List(r: nat)      // read the ledger and filter the directory
    | Begin(r: nat)     // open the next entry's transaction
    | RunBody(r: nat)   // execute the SQL body
    | InsertRow(r: nat) // insert the ledger row, subject to the primary key
    | Commit(r: nat)
    | Stop(r: nat)      // a failing body, a crash or a normal end: an open transaction is rolled back

  predicate HoldsRow(runner: Runner, version: nat) {
    runner.InTransaction? && version in Versions(runner.rows)
  }

  /** One event; an event that cannot happen in the state, or has to wait, leaves it as it is. */
  function Step(files: seq<MigrationFile>, s: System, e: Event): System {
    if e.r >= |s.runners| then s
    else
      var runner := s.runners[e.r];
      match e
      case List(r) =>
        if !runner.Stopped? then s
        else
          var applied := Versions(s.ledger);
          s.(runners := s.runners[r := Working(applied, Pending(files, applied), 0)])
      case Begin(r) =>
        if !runner.Working? || runner.next >= |runner.pending| then s
        else s.(runners := s.runners[r := InTransaction(runner.applied, runner.pending, runner.next, [], [])])
      case RunBody(r) =>
        if !runner.InTransaction? || runner.next >= |runner.pending| || runner.bodies != [] then s
        else s.(runners := s.runners[r := runner.(bodies := [runner.pending[runner.next]])])
      case InsertRow(r) =>
        if !runner.InTransaction? || runner.next >= |runner.pending| || runner.bodies == [] || runner.rows != [] then s
        else
          var row := runner.pending[runner.next];
          if exists q :: 0 <= q < |s.runners| && HoldsRow(s.runners[q], row.version) then s
          else if row.version in Versions(s.ledger) then s.(runners := s.runners[r := Stopped])
          else s.(runners := s.runners[r := runner.(rows := [row])])
      case Commit(r) =>
        if !runner.InTransaction? || runner.rows == [] then s
        else System(s.bodies + runner.bodies, s.ledger + runner.rows,
                    s.runners[r := Working(runner.applied, runner.pending, runner.next + 1)])
      case Stop(r) =>
        s.(runners := s.runners[r := Stopped])
  }

  function Run(files: seq<MigrationFile>, s: System, events: seq<Event>): System {
    if events == [] then s
    else Step(files, Run(files, s, events[..|events| - 1]), events[|events| - 1])
  }

  function Initial(runners: nat): System {
    System([], [], seq(runners, _ => Stopped))
  }

  // ---- safety of every run ----

  predicate RunnerInvariant(files: seq<MigrationFile>, ledger: seq<MigrationFile>, runner: Runner) {
    !runner.Stopped? ==>
      && runner.applied <= Versions(ledger)
      && runner.pending == Pending(files, runner.applied)
      && runner.next <= |runner.pending|
      && (forall j :: 0 <= j < runner.next ==> runner.pending[j].version in Versions(ledger))
      && (runner.InTransaction? ==>
            && runner.next < |runner.pending|
            && (runner.bodies == [] || runner.bodies == [runner.pending[runner.next]])
            && (runner.rows == [] || (runner.rows == runner.bodies && runner.rows[0].version !in Versions(ledger))))
  }

  ghost predicate Invariant(files: seq<MigrationFile>, s: System) {
    && s.ledger <= Schedule(files)
    && s.bodies == s.ledger
    && (forall r :: 0 <= r < |s.runners| ==> RunnerInvariant(files, s.ledger, s.runners[r]))
    && (forall q, r :: 0 <= q < r < |s.runners| && s.runners[q].InTransaction? && s.runners[r].InTransaction?
          ==> Versions(s.runners[q].rows) !! Versions(s.runners[r].rows))
  }

  /** A commit publishes exactly the next entry of the schedule. */
  lemma CommitIsNextOfSchedule(files: seq<MigrationFile>, ledger: seq<MigrationFile>, runner: Runner)
    requires ledger <= Schedule(files)
    requires RunnerInvariant(files, ledger, runner) && runner.InTransaction? && runner.rows != []
    ensures ledger + runner.rows <= Schedule(files)
  {
    StaleListOffersFirstMissing(files, runner.applied, Versions(ledger), runner.next);
    ScheduleIsFirstMissing(files, {}, |ledger|);
    assert Schedule(files)[..|ledger|] == ledger;
    assert {} + Versions(ledger) == Versions(ledger);
  }

  lemma LedgerGrows(ledger: seq<MigrationFile>, rows: seq<MigrationFile>)
    ensures Versions(ledger + rows) == Versions(ledger) + Versions(rows)
  {
  }

  lemma StepKeepsInvariant(files: seq<MigrationFile>, s: System, e: Event)
    requires Invariant(files, s)
    ensures Invariant(files, Step(files, s, e))
  {
    if e.Commit? && e.r < |s.runners| && s.runners[e.r].InTransaction? && s.runners[e.r].rows != [] {
      var runner := s.runners[e.r];
      CommitIsNextOfSchedule(files, s.ledger, runner);
      LedgerGrows(s.ledger, runner.rows);
      assert runner.rows[0].version in Versions(runner.rows);
      forall q | 0 <= q < |s.runners| && q != e.r
        ensures RunnerInvariant(files, s.ledger + runner.rows, s.runners[q])
      {
        if s.runners[q].InTransaction? && s.runners[q].rows != [] {
          assert s.runners[q].rows[0].version in Versions(s.runners[q].rows);
        }
      }
    } else if e.InsertRow? && e.r < |s.runners| {
      InsertKeepsInvariant(files, s, e.r);
    }
  }

  lemma InsertKeepsInvariant(files: seq<MigrationFile>, s: System, r: nat)
    requires Invariant(files, s) && r < |s.runners|
    ensures Invariant(files, Step(files, s, InsertRow(r)))
  {
    var s' := Step(files, s, InsertRow(r));
    if s'.runners[r].InTransaction? && s'.runners[r] != s.runners[r] {
      var row := s'.runners[r].rows[0];
      forall q | 0 <= q < |s.runners| && q != r && s.runners[q].InTransaction?
        ensures Versions(s.runners[q].rows) !! {row.version}
      {
        assert !HoldsRow(s.runners[q], row.version);
      }
      assert Versions([row]) == {row.version};
    }
  }

  lemma {:induction false} RunKeepsInvariant(files: seq<MigrationFile>, runners: nat, events: seq<Event>)
    ensures Invariant(files, Run(files, Initial(runners), events))
  {
    if events != [] {
      RunKeepsInvariant(files, runners, events[..|events| - 1]);
      StepKeepsInvariant(files, Run(files, Initial(runners), events[..|events| - 1]), events[|events| - 1]);
    }
  }

  /**
   * Whatever the runners do and wherever they crash, the committed bodies are a prefix of the sorted
   * directory's first files per version, no version twice, and the ledger lists exactly those bodies.
   */
  lemma CommittedIsPrefixOfSchedule(files: seq<MigrationFile>, runners: nat, events: seq<Event>)
    requires SortedByVersion(files)
    ensures var s := Run(files, Initial(runners), events);
      && s.bodies <= Schedule(files)
      && s.ledger == s.bodies
      && SortedByVersion(s.bodies)
      && DistinctVersions(s.bodies)
      && (DistinctVersions(files) ==> s.bodies <= files)
  {
    RunKeepsInvariant(files, runners, events);
    ScheduleVersions(files, {});
    ScheduleSorted(files, {});
    ScheduleIsAllFiles(files, {});
  }

  /** No event ever takes a committed migration back, and none but a commit adds one. */
  lemma CommittedOnlyGrows(files: seq<MigrationFile>, s: System, e: Event)
    ensures s.bodies <= Step(files, s, e).bodies && s.ledger <= Step(files, s, e).ledger
    ensures !e.Commit? ==> Step(files, s, e).bodies == s.bodies && Step(files, s, e).ledger == s.ledger
  {
  }

  /** A pending list has exactly the files whose version was not applied. */
  lemma {:induction false} PendingMembers(files: seq<MigrationFile>, applied: set<nat>, file: MigrationFile)
    ensures file in Pending(files, applied) <==> file in files && file.version !in applied
  {
    if files != [] {
      PendingMembers(files[1..], applied, file);
      assert files == [files[0]] + files[1..];
    }
  }

  /** A runner's way through the first file of its list. */
  function FirstFile(r: nat): seq<Event> {
    [List(r), Begin(r), RunBody(r), InsertRow(r), Commit(r)]
  }

  /** With nobody in its way a runner commits the first file missing from the ledger, body and row. */
  lemma LoneRunnerCommits(files: seq<MigrationFile>, s: System, r: nat)
    requires r < |s.runners| && s.runners[r].Stopped? && FirstMissing(files, Versions(s.ledger)).Some?
    requires forall q :: 0 <= q < |s.runners| ==> !s.runners[q].InTransaction?
    ensures var s', file := Run(files, s, FirstFile(r)), FirstMissing(files, Versions(s.ledger)).value;
      s'.bodies == s.bodies + [file] && s'.ledger == s.ledger + [file]
  {
    var es := FirstFile(r);
    assert es[..4][..3] == es[..3] && es[..3][..2] == es[..2] && es[..2][..1] == es[..1] && es[..1][..0] == [];
    var applied, pending := Versions(s.ledger), Pending(files, Versions(s.ledger));
    FirstOfPending(files, applied);
    var s1 := s.(runners := s.runners[r := Working(applied, pending, 0)]);
    var s2 := s.(runners := s.runners[r := InTransaction(applied, pending, 0, [], [])]);
    var s3 := s.(runners := s.runners[r := InTransaction(applied, pending, 0, [pending[0]], [])]);
    var s4 := s.(runners := s.runners[r := InTransaction(applied, pending, 0, [pending[0]], [pending[0]])]);
    assert Run(files, s, es[..1]) == s1;
    assert Run(files, s, es[..2]) == s2;
    assert Run(files, s, es[..3]) == s3;
    assert Run(files, s, es[..4]) == Step(files, s3, es[3]);
    NobodyHolds(s3, r, pending[0].version);
    assert Run(files, s, es[..4]) == s4;
    assert Run(files, s, es) == Step(files, s4, es[4]);
  }

  /** A crash rolls the open transaction back and blocks nobody: another runner then commits the missing file. */
  lemma CrashBlocksNobody(files: seq<MigrationFile>, s: System, r: nat, q: nat)
    requires r < |s.runners| && q < |s.runners| && r != q && s.runners[q].Stopped?
    requires FirstMissing(files, Versions(s.ledger)).Some?
    requires forall p :: 0 <= p < |s.runners| && p != r ==> !s.runners[p].InTransaction?
    ensures var crashed := Step(files, s, Stop(r));
      var s', file := Run(files, crashed, FirstFile(q)), FirstMissing(files, Versions(s.ledger)).value;
      && crashed.bodies == s.bodies && crashed.ledger == s.ledger
      && s'.bodies == s.bodies + [file] && s'.ledger == s.ledger + [file]
  {
    LoneRunnerCommits(files, Step(files, s, Stop(r)), q);
  }

  lemma NobodyHolds(s: System, r: nat, version: nat)
    requires r < |s.runners| && s.runners[r].InTransaction? && s.runners[r].rows == []
    requires forall q :: 0 <= q < |s.runners| && q != r ==> !s.runners[q].InTransaction?
    ensures forall q :: 0 <= q < |s.runners| ==> !HoldsRow(s.runners[q], version)
  {
  }

  lemma {:induction false} FirstOfPending(files: seq<MigrationFile>, applied: set<nat>)
    requires FirstMissing(files, applied).Some?
    ensures var pending := Pending(files, applied);
      pending != [] && pending[0] == FirstMissing(files, applied).value && pending[0].version !in applied
  {
    if files[0].version in applied {
      FirstOfPending(files[1..], applied);
    }
  }

  /** A runner whose next file another has committed meanwhile is stopped by the ledger's key; nothing is committed. */
  lemma StaleRunnerIsStopped(files: seq<MigrationFile>, s: System, r: nat)
    requires r < |s.runners| && s.runners[r].Working? && s.runners[r].next < |s.runners[r].pending|
    requires s.runners[r].pending[s.runners[r].next].version in Versions(s.ledger)
    requires forall q :: 0 <= q < |s.runners| ==> !s.runners[q].InTransaction?
    ensures Run(files, s, [Begin(r), RunBody(r), InsertRow(r), Commit(r)]) == s.(runners := s.runners[r := Stopped])
  {
    var es := [Begin(r), RunBody(r), InsertRow(r), Commit(r)];
    assert es[..3][..2] == es[..2] && es[..2][..1] == es[..1] && es[..1][..0] == [];
    var applied, pending, next := s.runners[r].applied, s.runners[r].pending, s.runners[r].next;
    var s1 := s.(runners := s.runners[r := InTransaction(applied, pending, next, [], [])]);
    var s2 := s.(runners := s.runners[r := InTransaction(applied, pending, next, [pending[next]], [])]);
    var s3 := s.(runners := s.runners[r := Stopped]);
    assert Run(files, s, es[..1]) == s1;
    assert Run(files, s, es[..2]) == s2;
    assert Run(files, s, es[..3]) == Step(files, s2, es[2]);
    NobodyHolds(s2, r, pending[next].version);
    assert Run(files, s, es[..3]) == s3;
    assert Run(files, s, es) == Step(files, s3, es[3]);
  }

  // ---- one run, as the program performs it ----

  /** The entries of a pending list that commit: those before the first failing body or repeated version. */
  function Applicable(pending: seq<MigrationFile>, succeeds: MigrationFile -> bool, ledger: set<nat>)
    : seq<MigrationFile>
  {
    if pending == [] || !succeeds(pending[0]) || pending[0].version in ledger then []
    else [pending[0]] + Applicable(pending[1..], succeeds, ledger + {pending[0].version})
  }

  /** Entry `i` of the loop: it either commits and is the next applicable entry, or it ends the run. */
  lemma ApplyEntry(pending: seq<MigrationFile>, succeeds: MigrationFile -> bool, before: seq<MigrationFile>, i: nat)
    requires i < |pending|
    ensures var ledger := Versions(before + pending[..i]);
      var rest := Applicable(pending[i..], succeeds, ledger);
      var next := Applicable(pending[i + 1..], succeeds, Versions(before + pending[..i + 1]));
      if succeeds(pending[i]) && pending[i].version !in ledger then pending[..i] + rest == pending[..i + 1] + next
      else pending[..i] + rest == pending[..i]
  {
    assert pending[i..][0] == pending[i] && pending[i..][1..] == pending[i + 1..];
    assert (before + pending[..i]) + [pending[i]] == before + pending[..i + 1];
    LedgerGrows(before + pending[..i], [pending[i]]);
    assert Versions([pending[i]]) == {pending[i].version};
  }

  lemma AppendOne(files: seq<MigrationFile>, pending: seq<MigrationFile>, i: nat)
    requires i < |pending|
    ensures (files + pending[..i]) + [pending[i]] == files + pending[..i + 1]
    ensures Filenames(pending[..i]) + [pending[i].filename] == Filenames(pending[..i + 1])
  {
  }

  function Filenames(files: seq<MigrationFile>): (names: seq<string>)
    ensures |names| == |files|
    ensures forall i :: 0 <= i < |files| ==> names[i] == files[i].filename
  {
    seq(|files|, i requires 0 <= i < |files| => files[i].filename)
  }

  class Database {
    var bodies: seq<MigrationFile>
    var ledger: seq<MigrationFile>

    constructor ()
      ensures bodies == [] && ledger == []
    {
      bodies, ledger := [], [];
    }

    method GetAppliedMigrationVersions() returns (applied: set<nat>)
      ensures applied == Versions(ledger)
    {
      applied := set row | row in ledger :: row.version;
    }

    method ListPendingMigrations(files: seq<MigrationFile>) returns (pending: seq<MigrationFile>)
      ensures pending == Pending(files, Versions(ledger))
    {
      var applied := GetAppliedMigrationVersions();
      pending := [];
      for i := 0 to |files|
        invariant pending + Pending(files[i..], applied) == Pending(files, applied)
      {
        assert files[i..][1..] == files[i + 1..];
        if files[i].version !in applied {
          pending := pending + [files[i]];
        }
      }
    }

    /** One transaction: the body and its ledger row are committed together, or neither is. */
    method Transaction(migration: MigrationFile, bodySucceeds: bool) returns (committed: bool)
      modifies this
      ensures committed <==> bodySucceeds && migration.version !in Versions(old(ledger))
      ensures bodies == old(bodies) + (if committed then [migration] else [])
      ensures ledger == old(ledger) + (if committed then [migration] else [])
    {
      committed := bodySucceeds && forall row :: row in ledger ==> row.version != migration.version;
      if committed {
        bodies := bodies + [migration];
        ledger := ledger + [migration];
      }
    }

    method RunPendingSqlMigrations(files: seq<MigrationFile>, succeeds: MigrationFile -> bool)
      returns (applied: seq<string>, completed: bool)
      modifies this
      ensures var pending := Pending(files, Versions(old(ledger)));
        var done := Applicable(pending, succeeds, Versions(old(ledger)));
        && bodies == old(bodies) + done
        && ledger == old(ledger) + done
        && applied == Filenames(done)
        && (completed <==> done == pending)
        && (completed <==> DistinctVersions(pending) && AllSucceed(pending, succeeds))
    {
      var pending := ListPendingMigrations(files);
      RunCompletesExactly(files, Versions(ledger), succeeds);
      applied, completed := ApplyInOrder(pending, succeeds);
    }

    /** The loop stops at the first transaction that fails: the source lets the error out of it. */
    method ApplyInOrder(pending: seq<MigrationFile>, succeeds: MigrationFile -> bool)
      returns (applied: seq<string>, completed: bool)
      modifies this
      ensures var done := Applicable(pending, succeeds, Versions(old(ledger)));
        && bodies == old(bodies) + done
        && ledger == old(ledger) + done
        && applied == Filenames(done)
        && (completed <==> done == pending)
    {
      applied := [];
      ghost var all := Applicable(pending, succeeds, Versions(ledger));
      ghost var bodies0, ledger0 := bodies, ledger;
      assert pending[0..] == pending;
      for i := 0 to |pending|
        invariant applied == Filenames(pending[..i])
        invariant bodies == bodies0 + pending[..i] && ledger == ledger0 + pending[..i]
        invariant all == pending[..i] + Applicable(pending[i..], succeeds, Versions(ledger))
      {
        hide *;
        ApplyEntry(pending, succeeds, ledger0, i);
        var committed := Transaction(pending[i], succeeds(pending[i]));
        if !committed {
          return applied, false;
        }
        AppendOne(bodies0, pending, i);
        AppendOne(ledger0, pending, i);
        applied := applied + [pending[i].filename];
      }
      completed := true;
    }
  }

  predicate AllSucceed(files: seq<MigrationFile>, succeeds: MigrationFile -> bool) {
    forall file :: file in files ==> succeeds(file)
  }

  /** All entries of a list commit exactly when every body succeeds, no version repeats and none is in the ledger. */
  lemma {:induction false} AllCommitExactly(pending: seq<MigrationFile>, succeeds: MigrationFile -> bool,
                                            ledger: set<nat>)
    ensures Applicable(pending, succeeds, ledger) == pending
      <==> AllSucceed(pending, succeeds) && DistinctVersions(pending) && Versions(pending) !! ledger
    decreases |pending|
  {
    if pending != [] {
      var first, rest := pending[0], pending[1..];
      assert pending == [first] + rest;
      VersionsOfCons(first, rest);
      DistinctAfterFirst(pending);
      if succeeds(first) && first.version !in ledger {
        AllCommitExactly(rest, succeeds, ledger + {first.version});
        assert Applicable(pending, succeeds, ledger)[1..] == Applicable(rest, succeeds, ledger + {first.version});
      }
      assert first in pending;
    }
  }

  /** What commits of a list: its longest front of succeeding bodies and new, distinct versions. */
  lemma {:induction false} CommitsUntilFirstFailure(pending: seq<MigrationFile>, succeeds: MigrationFile -> bool,
                                                    ledger: set<nat>)
    ensures var done := Applicable(pending, succeeds, ledger);
      && done <= pending && AllSucceed(done, succeeds) && DistinctVersions(done) && Versions(done) !! ledger
      && (|done| < |pending| ==>
            !succeeds(pending[|done|]) || pending[|done|].version in ledger + Versions(done))
    decreases |pending|
  {
    if pending != [] && succeeds(pending[0]) && pending[0].version !in ledger {
      var first, rest := pending[0], pending[1..];
      var done := Applicable(rest, succeeds, ledger + {first.version});
      CommitsUntilFirstFailure(rest, succeeds, ledger + {first.version});
      VersionsOfCons(first, done);
      var all := [first] + done;
      assert Applicable(pending, succeeds, ledger) == all && all[1..] == done;
      DistinctAfterFirst(all);
      assert pending == [first] + rest;
    }
  }

  lemma {:induction false} PendingIsNew(files: seq<MigrationFile>, applied: set<nat>)
    ensures Versions(Pending(files, applied)) !! applied
  {
    if files != [] {
      PendingIsNew(files[1..], applied);
      if files[0].version !in applied {
        VersionsOfCons(files[0], Pending(files[1..], applied));
      }
    }
  }

  /** A run over its own pending list completes exactly when no version in it repeats and every body succeeds. */
  lemma RunCompletesExactly(files: seq<MigrationFile>, applied: set<nat>, succeeds: MigrationFile -> bool)
    ensures var pending := Pending(files, applied);
      Applicable(pending, succeeds, applied) == pending <==> DistinctVersions(pending) && AllSucceed(pending, succeeds)
  {
    AllCommitExactly(Pending(files, applied), succeeds, applied);
    PendingIsNew(files, applied);
  }

  /** Two files of one version: the first commits, the second ends that run, and later runs do not list it. */
  lemma RepeatedVersionEndsRun()
    ensures var first, second := MigrationFile(22, "0022_guests.sql"), MigrationFile(22, "0022_rates.sql");
      var files := [first, second];
      && Pending(files, {}) == files
      && Applicable(files, _ => true, {}) == [first]
      && Pending(files, Versions([first])) == []
  {
    var first, second := MigrationFile(22, "0022_guests.sql"), MigrationFile(22, "0022_rates.sql");
    var files := [first, second];
    assert files[1..] == [second] && [second][1..] == [];
    assert Versions([first]) == {22};
    PendingOfOne(second, {});
    PendingOfOne(second, {22});
  }

  lemma PendingOfOne(file: MigrationFile, applied: set<nat>)
    ensures Pending([file], applied) == if file.version in applied then [] else [file]
  {
    assert [file][1..] == [];
  }

  /** With distinct versions and bodies that succeed, one run from any reachable ledger applies all that is missing. */
  lemma {:induction false} AllPendingApplicable(files: seq<MigrationFile>, applied: set<nat>, ledger: set<nat>,
                                                succeeds: MigrationFile -> bool)
    requires DistinctVersions(files)
    requires forall file :: file in files ==> succeeds(file)
    requires forall file :: file in files && file.version in ledger ==> file.version in applied
    ensures Applicable(Pending(files, applied), succeeds, ledger) == Pending(files, applied)
  {
    if files != [] {
      var rest := files[1..];
      DistinctAfterFirst(files);
      if files[0].version in applied {
        AllPendingApplicable(rest, applied, ledger, succeeds);
      } else {
        assert Pending(files, applied)[1..] == Pending(rest, applied);
        AllPendingApplicable(rest, applied, ledger + {files[0].version}, succeeds);
      }
    }
  }

  lemma {:induction false} PendingCompletesPrefix(files: seq<MigrationFile>, k: nat)
    requires DistinctVersions(files) && k <= |files|
    ensures files[..k] + Pending(files, Versions(files[..k])) == files
  {
    hide Pending;
    PendingAll(files[k..], Versions(files[..k]), files, k);
    PendingSkips(files, k, Versions(files[..k]));
    assert files[..k] + files[k..] == files;
  }

  lemma {:induction false} PendingSkips(files: seq<MigrationFile>, k: nat, applied: set<nat>)
    requires k <= |files| && Versions(files[..k]) <= applied
    ensures Pending(files, applied) == Pending(files[k..], applied)
  {
    if k > 0 {
      assert files[0] in files[..k];
      assert files[0].version in Versions(files[..k]);
      assert files[1..][..k - 1] == files[..k][1..];
      assert Versions(files[1..][..k - 1]) <= Versions(files[..k]);
      PendingSkips(files[1..], k - 1, applied);
      assert files[1..][k - 1..] == files[k..];
    } else {
      assert files[0..] == files;
    }
  }

  lemma {:induction false} PendingAll(tail: seq<MigrationFile>, applied: set<nat>, files: seq<MigrationFile>, k: nat)
    requires k <= |files| && tail == files[k..] && DistinctVersions(files)
    requires forall i :: k <= i < |files| ==> files[i].version !in applied
    ensures Pending(tail, applied) == tail
    decreases |tail|
  {
    if tail != [] {
      assert tail[0] == files[k];
      PendingAll(tail[1..], applied, files, k + 1);
    }
  }

  /** From any reachable ledger, one uninterrupted run over distinct versions leaves every file committed once. */
  lemma OneRunFinishes(files: seq<MigrationFile>, runners: nat, events: seq<Event>, succeeds: MigrationFile -> bool)
    requires SortedByVersion(files) && DistinctVersions(files)
    requires forall file :: file in files ==> succeeds(file)
    ensures var ledger := Run(files, Initial(runners), events).ledger;
      var pending := Pending(files, Versions(ledger));
      ledger + Applicable(pending, succeeds, Versions(ledger)) == files
  {
    var ledger := Run(files, Initial(runners), events).ledger;
    CommittedIsPrefixOfSchedule(files, runners, events);
    assert files[..|ledger|] == ledger;
    AllPendingApplicable(files, Versions(ledger), Versions(ledger), succeeds);
    PendingCompletesPrefix(files, |ledger|);
  }
}

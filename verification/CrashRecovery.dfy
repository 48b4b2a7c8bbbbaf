/**
 * A key manager writing its file while crashes and failed writes happen at any step. The disk
 * survives a crash, memory does not. Events that are not enabled change nothing.
 */
module CrashRecovery {
  import opened Prelude
  import opened Keystores
  import opened BackedFile
  import opened FileManagement

  datatype At =
    | Ready
    | Begun              // the map is changed, persistFile is about to rename
    | Renamed            // the file is about to be created anew
    | Writing(n: nat)    // n bytes of the text are on disk

  datatype Process = Down | Up(ks: Keystore, at: At)

  /**
   * `base` is the map last written completely or loaded, `target` the last one whose writing was
   * interrupted since then, if any, and `clean` says that the current persist began with an intact file.
   */
  datatype State = State(files: Files, process: Process, base: Keystore, target: Option<Keystore>, clean: bool)

  const INIT: State := State(Files(None, None), Up(map[], Ready), map[], None, true)

  datatype Event =
    | Set(op: SetKey)
    | Rename(ok: bool)
    | Create
    | Write(n: nat)
    | Finish
    | WriteError           // the write fails, the process goes on
    | Crash
    | Restart

  /** The file holds the map completely, or nothing was ever written. */
  ghost predicate Intact(f: Files, ks: Keystore)
  {
    f.main == Some(KeystoreText(ks)) || (f == Files(None, None) && ks == map[])
  }

  ghost function Step(s: State, e: Event): State
  {
    match s.process
    case Down =>
      if e.Restart? && Load(s.files).Some? then
        s.(process := Up(Load(s.files).value, Ready), base := Load(s.files).value, target := None)
      else s
    case Up(ks, at) =>
      match (e, at)
      case (Set(op), Ready) => s.(process := Up(Apply(ks, op), Begun), clean := Intact(s.files, s.base))
      case (Rename(ok), Begun) =>
        if s.files.main.Some? && ok
        then s.(files := Files(None, s.files.main), process := Up(ks, Renamed))
        else s.(process := Up(ks, Renamed))
      case (Create, Renamed) => s.(files := s.files.(main := Some([])), process := Up(ks, Writing(0)))
      case (Write(n), Writing(m)) =>
        if m <= n <= |KeystoreText(ks)|
        then s.(files := s.files.(main := Some(KeystoreText(ks)[..n])), process := Up(ks, Writing(n)))
        else s
      case (Finish, Writing(n)) =>
        if n == |KeystoreText(ks)| then s.(process := Up(ks, Ready), base := ks, target := None) else s
      case (WriteError, Writing(n)) => s.(process := Up(ks, Ready), target := Some(ks))
      case (Crash, _) => s.(process := Down, target := if at.Writing? then Some(ks) else s.target)
      case _ => s
  }

  ghost function Run(events: seq<Event>): State
  {
    if events == [] then INIT else Step(Run(events[..|events| - 1]), events[|events| - 1])
  }

  /** The event interrupts a write. */
  predicate Interrupts(s: State, e: Event)
  {
    (e.Crash? || e.WriteError?) && s.process.Up? && s.process.at.Writing?
  }

  /**
   * The conditions under which nothing is lost: renames work, no crash falls between a rename and
   * the creation of the new file, and a write that began with a torn file is allowed to complete.
   */
  ghost predicate Safe(s: State, e: Event)
  {
    && (e.Rename? && s.process.Up? && s.process.at.Begun? ==> e.ok)
    && (e.Crash? && s.process.Up? ==> !s.process.at.Renamed?)
    && (Interrupts(s, e) ==> s.clean)
  }

  ghost predicate SafeRun(events: seq<Event>)
  {
    events != [] ==>
      var init := events[..|events| - 1];
      SafeRun(init) && Safe(Run(init), events[|events| - 1])
  }

  // ---------- Invariant ----------

  ghost predicate Recoverable(f: Files, base: Keystore, target: Option<Keystore>)
  {
    Load(f) == Some(base) || (target.Some? && Load(f) == target)
  }

  ghost predicate Inv(s: State)
  {
    && PlainKeys(s.base)
    && (s.target.Some? ==> PlainKeys(s.target.value))
    && (s.process.Down? ==> Recoverable(s.files, s.base, s.target))
    && (s.process.Up? ==> PlainKeys(s.process.ks) && UpInv(s, s.process.ks, s.process.at))
  }

  ghost predicate UpInv(s: State, ks: Keystore, at: At)
  {
    match at
    case Ready => Recoverable(s.files, s.base, s.target)
    case Begun => Recoverable(s.files, s.base, s.target) && (s.clean ==> Intact(s.files, s.base))
    case Renamed => s.clean ==> s.files.main == None && BackedUp(s.files, s.base)
    case Writing(n) =>
      && n <= |KeystoreText(ks)| && s.files.main == Some(KeystoreText(ks)[..n])
      && (s.clean ==> BackedUp(s.files, s.base))
  }

  lemma IntactLoads(f: Files, ks: Keystore)
    requires PlainKeys(ks) && Intact(f, ks)
    ensures Load(f) == Some(ks)
  {
    if f.main.Some? { LoadComplete(f, ks); }
  }

  /** Whatever part of the new text is on disk, loading gives the old map or the new one. */
  lemma WritingRecoverable(s: State, ks: Keystore, n: nat)
    requires PlainKeys(s.base) && PlainKeys(ks) && UpInv(s, ks, Writing(n)) && s.clean
    ensures Recoverable(s.files, s.base, Some(ks))
  {
    if n == |KeystoreText(ks)| {
      assert KeystoreText(ks)[..n] == KeystoreText(ks);
      LoadComplete(s.files, ks);
    } else {
      LoadTorn(s.files, ks, n);
      BackupComplete(s.files, s.base);
    }
  }

  lemma CrashKeepsInv(s: State)
    requires Inv(s) && Safe(s, Crash) && s.process.Up?
    ensures Inv(Step(s, Crash))
  {
    var s', at := Step(s, Crash), s.process.at;
    if at.Writing? {
      WritingRecoverable(s, s.process.ks, at.n);
      assert s' == s.(process := Down, target := Some(s.process.ks));
    } else {
      assert s' == s.(process := Down);
    }
  }

  lemma StepKeepsInv(s: State, e: Event)
    requires Inv(s) && Safe(s, e)
    ensures Inv(Step(s, e))
  {
    if s.process.Up? {
      var ks := s.process.ks;
      match (e, s.process.at)
      case (Set(op), Ready) => EntryIdPlain(op.kind, op.uid);
      case (Rename(ok), Begun) => RenameKeepsInv(s, ok);
      case (WriteError, Writing(n)) => WritingRecoverable(s, ks, n);
      case (Finish, Writing(n)) => FinishKeepsInv(s, n);
      case (Crash, _) => CrashKeepsInv(s);
      case _ =>
    }
  }

  lemma RenameKeepsInv(s: State, ok: bool)
    requires Inv(s) && Safe(s, Rename(ok)) && s.process.Up? && s.process.at.Begun?
    ensures Inv(Step(s, Rename(ok)))
  {
  }

  lemma FinishKeepsInv(s: State, n: nat)
    requires Inv(s) && s.process.Up? && s.process.at == Writing(n)
    ensures Inv(Step(s, Finish))
  {
    var ks := s.process.ks;
    if n == |KeystoreText(ks)| {
      assert KeystoreText(ks)[..n] == KeystoreText(ks);
      LoadComplete(s.files, ks);
    }
  }

  lemma {:induction false} SafeRunInv(events: seq<Event>)
    requires SafeRun(events)
    ensures Inv(Run(events))
  {
    if events != [] {
      SafeRunInv(events[..|events| - 1]);
      StepKeepsInv(Run(events[..|events| - 1]), events[|events| - 1]);
    }
  }

  // ---------- Runs in which interruptions are kept apart ----------

  ghost predicate Completes(s: State, e: Event)
  {
    e.Finish? && s.process.Up? && s.process.at == Writing(|KeystoreText(s.process.ks)|)
  }

  /** A persist has completed since the last interrupted write, or no write was interrupted yet. */
  ghost predicate Settled(events: seq<Event>)
  {
    events != [] ==>
      var init, e := events[..|events| - 1], events[|events| - 1];
      StaysSettled(Run(init), e, Settled(init))
  }

  ghost predicate StaysSettled(s: State, e: Event, settled: bool)
  {
    !Interrupts(s, e) && (settled || Completes(s, e))
  }

  /**
   * Every rename works, no crash falls between a rename and the creation of the new file, and a
   * completed persist separates any two interrupted writes.
   */
  ghost predicate SpacedRun(events: seq<Event>)
  {
    events != [] ==>
      var init, e := events[..|events| - 1], events[|events| - 1];
      SpacedRun(init) && Spaced(Run(init), e, Settled(init))
  }

  ghost predicate Spaced(s: State, e: Event, settled: bool)
  {
    && (e.Rename? && s.process.Up? && s.process.at.Begun? ==> e.ok)
    && (e.Crash? && s.process.Up? ==> !s.process.at.Renamed?)
    && (Interrupts(s, e) ==> settled)
  }

  ghost predicate SettledInv(s: State)
  {
    match s.process
    case Down => Intact(s.files, s.base)
    case Up(_, Ready) => Intact(s.files, s.base)
    case Up(_, Begun) => Intact(s.files, s.base) && s.clean
    case Up(_, _) => s.clean
  }

  lemma WholePrefix(text: Bytes)
    ensures text[..|text|] == text
  {
  }

  lemma FinishSettles(s: State)
    requires s.process.Up? && Completes(s, Finish)
    requires s.files.main == Some(KeystoreText(s.process.ks)[..|KeystoreText(s.process.ks)|])
    ensures Intact(Step(s, Finish).files, Step(s, Finish).base)
    ensures Step(s, Finish).process == Up(s.process.ks, Ready)
  {
    WholePrefix(KeystoreText(s.process.ks));
  }

  lemma QuietStepStaysSettled(s: State, e: Event)
    requires Inv(s) && Safe(s, e) && SettledInv(s) && !Interrupts(s, e)
    ensures SettledInv(Step(s, e))
  {
    if s.process.Down? {
      IntactLoads(s.files, s.base);
    } else if Completes(s, e) {
      FinishSettles(s);
    } else {
      PersistStaysSettled(s, e);
    }
  }

  lemma PersistStaysSettled(s: State, e: Event)
    requires Inv(s) && Safe(s, e) && SettledInv(s) && !Interrupts(s, e)
    requires s.process.Up? && !Completes(s, e)
    ensures SettledInv(Step(s, e))
  {
    match (e, s.process.at)
    case (Set(op), Ready) =>
    case (Rename(ok), Begun) =>
    case (Crash, _) => assert Step(s, e) == s.(process := Down);
    case _ =>
  }

  lemma SpacedStepIsSafe(s: State, e: Event, settled: bool)
    requires Inv(s) && (settled ==> SettledInv(s)) && Spaced(s, e, settled)
    ensures Safe(s, e)
    ensures StaysSettled(s, e, settled) ==> SettledInv(Step(s, e))
  {
    if Completes(s, e) {
      FinishSettles(s);
    } else if settled && !Interrupts(s, e) {
      QuietStepStaysSettled(s, e);
    }
  }

  /** Keeping interruptions apart is enough for safety. */
  lemma {:induction false} SpacedRunIsSafe(events: seq<Event>)
    requires SpacedRun(events)
    ensures SafeRun(events)
    ensures Settled(events) ==> SettledInv(Run(events))
  {
    if events != [] {
      var init, e := events[..|events| - 1], events[|events| - 1];
      SpacedRunIsSafe(init);
      SafeRunInv(init);
      SpacedStepIsSafe(Run(init), e, Settled(init));
    }
  }

  // ---------- Results ----------

  /**
   * In every safe run, a restart finds the map last written completely or loaded, or the one whose
   * writing was interrupted since; if no write was, it finds the former.
   */
  lemma RestartRecovers(events: seq<Event>)
    requires SafeRun(events) && Run(events).process.Down?
    ensures var s, s' := Run(events), Step(Run(events), Restart);
            && s'.process.Up? && s'.process.at.Ready?
            && s'.process.ks in (if s.target.Some? then {s.base, s.target.value} else {s.base})
  {
    SafeRunInv(events);
  }

  /** A completed persist ends the interruption and leaves an intact file, so the next write may be interrupted. */
  lemma CompletedPersistIsClean(s: State, op: SetKey)
    requires Inv(s) && s.process.Up? && s.process.at == Writing(|KeystoreText(s.process.ks)|)
    ensures var done := Step(s, Finish);
            && done.base == s.process.ks && done.target == None && Load(done.files) == Some(s.process.ks)
            && Step(done, Set(op)).clean
  {
    FinishSettles(s);
    IntactLoads(Step(s, Finish).files, s.process.ks);
  }

  lemma SameBackup(f: Files, g: Files)
    requires f.bck == g.bck
    ensures LoadBackup(f, NO_FAULTS, ParseKeystore, map[]) == LoadBackup(g, NO_FAULTS, ParseKeystore, map[])
  {
  }

  /** Whether the rename moves a file to the backup. */
  predicate Moves(f: Files, renameFails: bool)
  {
    f.main.Some? && !renameFails
  }

  /** The old map or the new one can still be loaded when the new text is torn. */
  ghost predicate TornSurvived(f: Files, before: Keystore, after: Keystore, renameFails: bool)
  {
    if Moves(f, renameFails) then ParseKeystore(f.main.value).Some?
    else LoadBackup(f, NO_FAULTS, ParseKeystore, map[]) in {Some(before), Some(after)}
  }

  /**
   * Exactly when one crash is survived, whatever state of the two files the map `before` was
   * loaded from. The window between a rename and the creation of the new file loses the keys,
   * unless there are none. A torn write is survived if the file moved to the backup was itself
   * intact; if nothing was moved, only if the older backup already holds one of the two maps.
   */
  lemma CrashSurvivedIff(f: Files, before: Keystore, after: Keystore, renameFails: bool, p: Point)
    requires PlainKeys(after) && Load(f) == Some(before)
    ensures var loaded := Load(FilesAt(f, KeystoreText(after), renameFails, p));
            loaded in {Some(before), Some(after)} <==>
              match p
              case BeforeRename => true
              case InWindow => !Moves(f, renameFails) || before == map[] || after == map[]
              case Written(n) => n >= |KeystoreText(after)| || TornSurvived(f, before, after, renameFails)
  {
    var text := KeystoreText(after);
    var at := FilesAt(f, text, renameFails, p);
    if p.Written? && p.n < |text| {
      LoadTorn(at, after, p.n);
      if Moves(f, renameFails) {
        MovedLoads(f, at, before);
      } else {
        SameBackup(at, f);
      }
    } else if p.Written? {
      LoadComplete(at, after);
    }
  }

  /** The backup is the old file: it loads to what that file held, or not at all. */
  lemma MovedLoads(f: Files, at: Files, before: Keystore)
    requires Load(f) == Some(before) && f.main.Some? && at.bck == f.main
    ensures LoadBackup(at, NO_FAULTS, ParseKeystore, map[]) ==
            if ParseKeystore(f.main.value).Some? then Some(before) else None
  {
    if ParseKeystore(f.main.value).Some? {
      LoadParsed(f, ParseKeystore, ParseKeystore(f.main.value).value);
      LoadBackupParsed(at, ParseKeystore, ParseKeystore(f.main.value).value);
    }
  }

  /** The steps of a persist pass through exactly these points, and a crash leaves the files as they are. */
  lemma PersistSteps(s: State, ks: Keystore, ok: bool, n: nat)
    requires s.process == Up(ks, Begun) && n <= |KeystoreText(ks)|
    ensures var text := KeystoreText(ks);
            var s1 := Step(s, Rename(ok));
            var s2 := Step(s1, Create);
            var s3 := Step(s2, Write(n));
            && s1.files == FilesAt(s.files, text, !ok, InWindow) && s1.process == Up(ks, Renamed)
            && s2.files == FilesAt(s.files, text, !ok, Written(0)) && s2.process == Up(ks, Writing(0))
            && s3.files == FilesAt(s.files, text, !ok, Written(n)) && s3.process == Up(ks, Writing(n))
            && Step(s1, Crash).files == s1.files && Step(s3, Crash).files == s3.files
  {
    if n == |KeystoreText(ks)| { WholePrefix(KeystoreText(ks)); }
  }

  /** In the window the next start finds no keys, although the backup holds all of them. */
  lemma WindowLosesKeys(f: Files, before: Keystore, after: Keystore)
    requires PlainKeys(before) && f.main == Some(KeystoreText(before))
    ensures var at := FilesAt(f, KeystoreText(after), false, InWindow);
            && Load(at) == Some(map[])
            && at.bck.Some? && ParseKeystore(at.bck.value) == Some(before)
  {
    ParseKeystoreText(before);
  }

  /**
   * A torn write followed by another torn write destroys both copies, whatever the backup held:
   * the rename replaces a good backup by the torn file, and loading fails outright.
   */
  lemma TwoTornWritesFail(bck: Option<Bytes>, first: Keystore, n: nat, second: Keystore, m: nat)
    requires PlainKeys(first) && n < |KeystoreText(first)|
    requires PlainKeys(second) && m < |KeystoreText(second)|
    ensures var torn := Files(Some(KeystoreText(first)[..n]), bck);
            var at := FilesAt(torn, KeystoreText(second), false, Written(m));
            at.bck == torn.main && Load(at) == None
  {
    var torn := Files(Some(KeystoreText(first)[..n]), bck);
    TornTextFails(first, n);
    LoadTorn(FilesAt(torn, KeystoreText(second), false, Written(m)), second, m);
  }

  /** So a map that a start still read from its backup is gone after one more torn write. */
  lemma RecoveredMapIsLost(before: Keystore, first: Keystore, n: nat, second: Keystore, m: nat)
    requires PlainKeys(before)
    requires PlainKeys(first) && n < |KeystoreText(first)|
    requires PlainKeys(second) && m < |KeystoreText(second)|
    ensures var f := Files(Some(KeystoreText(first)[..n]), Some(KeystoreText(before)));
            Load(f) == Some(before) && Load(FilesAt(f, KeystoreText(second), false, Written(m))) == None
  {
    var f := Files(Some(KeystoreText(first)[..n]), Some(KeystoreText(before)));
    LoadTorn(f, first, n);
    BackupComplete(f, before);
    TwoTornWritesFail(f.bck, first, n, second, m);
  }
}

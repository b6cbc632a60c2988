/**
 The managed restore itself: stage a verified backup, publish it under a journal, commit, clean up; and the
 run of one restore followed by any number of interrupted recoveries.
*/
module ManagedRestore {
  import opened Options
  import opened Crashes
  import opened VaultFiles
  import opened Rollback
  import opened RestoreJournal
  import opened RestoreWork
  import opened Restore

  const KEY_BUNDLE: Name := ".keyclasp.key"
  const SQLITE_LIVE_FILES: seq<Name> := ["vault.db", "vault.db-wal", "vault.db-shm"]

  /** The staged set: the backup's files, with the converted key bundle and database of a portable restore. */
  function Converted(source: seq<Entry>, converted: seq<Entry>): (staged: seq<Entry>)
    ensures SameNames(source, staged)
  {
    seq(|source|, i requires 0 <= i < |source| =>
      Entry(source[i].name,
            var replacement := HashOf(converted, source[i].name);
            if replacement.Some? then replacement.value else source[i].hash))
  }

  /** A staging journal is durable, its directories exist, and nothing is decided yet. */
  ghost predicate InStaging(p: RestoreProcess, plan: Plan)
    reads p
  {
    && p.Safe(plan, Old)
    && p.disk.journal == Some(p.journal) && p.journal.phase.StagingPhase?
    && p.disk.stagingDirectory && p.disk.previousDirectory
    && p.written <= {StagingPhase, PublishingPhase}
  }

  /** The staging directory holds exactly these files under their plain names. */
  ghost predicate StagedExactly(files: Files, entries: seq<Entry>) {
    forall leaf :: Content(files, Staging(leaf)) == if leaf.Plain? then HashOf(entries, leaf.name) else None
  }

  twostate predicate StagingOnly(p: RestoreProcess, new leaf: Leaf)
    reads p
  {
    && p.written == old(p.written)
    && (forall path :: path != Staging(leaf) ==> Content(p.disk.files, path) == Content(old(p.disk.files), path))
  }

  method Put(p: RestoreProcess, leaf: Leaf, hash: Hash, ghost plan: Plan) returns (s: Status)
    requires InStaging(p, plan) && StagingLeaf(plan.staged, leaf)
    modifies p`disk, p.fuse
    ensures InStaging(p, plan) && StagingOnly(p, leaf) && p.fuse.Ran(s, 1)
    ensures p.disk.files == if s.Ok? then old(p.disk.files)[Staging(leaf) := hash] else old(p.disk.files)
    ensures Strays(p.disk.files) == Strays(old(p.disk.files)) + if s.Ok? && Stray(leaf) then {leaf} else {}
  {
    s := p.fuse.Primitive();
    if !s.Ok? { return; }
    p.disk := p.disk.(files := p.disk.files[Staging(leaf) := hash]);
  }

  method Drop(p: RestoreProcess, leaf: Leaf, ghost plan: Plan) returns (s: Status)
    requires InStaging(p, plan)
    modifies p`disk, p.fuse
    ensures InStaging(p, plan) && StagingOnly(p, leaf) && p.fuse.Ran(s, One(Staging(leaf) in old(p.disk.files)))
    ensures p.disk.files == if s.Ok? then old(p.disk.files) - {Staging(leaf)} else old(p.disk.files)
    ensures Strays(p.disk.files) == Strays(old(p.disk.files)) - if s.Ok? then {leaf} else {}
  {
    if Staging(leaf) !in p.disk.files { return Ok; }
    s := p.fuse.Primitive();
    if !s.Ok? { return; }
    p.disk := p.disk.(files := p.disk.files - {Staging(leaf)});
  }

  /** A rename between two entries of the staging directory. */
  method Move(p: RestoreProcess, moveFrom: Leaf, moveTo: Leaf, ghost plan: Plan) returns (s: Status)
    requires InStaging(p, plan) && Staging(moveFrom) in p.disk.files && StagingLeaf(plan.staged, moveTo)
    requires moveFrom != moveTo && !Stray(moveTo)
    modifies p`disk, p.fuse
    ensures InStaging(p, plan) && p.fuse.Ran(s, 1)
    ensures var was := old(p.disk.files); var source, target := Staging(moveFrom), Staging(moveTo);
            p.disk.files == if s.Ok? then (was - {source})[target := was[source]] else was
    ensures Strays(p.disk.files) == if s.Ok? then Strays(old(p.disk.files)) - {moveFrom} else Strays(old(p.disk.files))
  {
    s := p.fuse.Primitive();
    if !s.Ok? { return; }
    var files, source, target := p.disk.files, Staging(moveFrom), Staging(moveTo);
    p.disk := p.disk.(files := (files - {source})[target := files[source]]);
  }

  /** Copies of the first `count` live SQLite files in the staging directory. */
  function CopiesUpTo(files: Files, count: nat): nat {
    if count == 0 then 0 else CopiesUpTo(files, count - 1) + One(Staging(Scratch(count - 1)) in files)
  }

  function Copies(files: Files): nat { CopiesUpTo(files, CLASSIFICATION_FILES) }

  /** How many of the first `count` SQLite files are live. */
  function LiveFilesUpTo(previous: seq<Entry>, count: nat): nat
    requires count <= |SQLITE_LIVE_FILES|
  {
    if count == 0 then 0
    else LiveFilesUpTo(previous, count - 1) + One(HashOf(previous, SQLITE_LIVE_FILES[count - 1]).Some?)
  }

  function LiveFiles(previous: seq<Entry>): nat { LiveFilesUpTo(previous, |SQLITE_LIVE_FILES|) }

  lemma LiveFilesGrow(previous: seq<Entry>, i: nat, j: nat)
    requires i <= j <= |SQLITE_LIVE_FILES|
    ensures LiveFilesUpTo(previous, i) <= LiveFilesUpTo(previous, j)
  {
  }

  lemma CopiesGrow(files: Files, i: nat, j: nat)
    requires i <= j
    ensures CopiesUpTo(files, i) <= CopiesUpTo(files, j)
  {
  }

  /** Every live file has its copy, and the database may have one besides. */
  lemma CopiesOfLive(files: Files, previous: seq<Entry>)
    requires forall i :: 1 <= i < CLASSIFICATION_FILES ==>
               (Staging(Scratch(i)) in files <==> HashOf(previous, SQLITE_LIVE_FILES[i]).Some?)
    requires HashOf(previous, SQLITE_LIVE_FILES[0]).Some? ==> Staging(Scratch(0)) in files
    ensures Copies(files) == LiveFiles(previous) +
              One(Staging(Scratch(0)) in files && HashOf(previous, SQLITE_LIVE_FILES[0]).None?)
  {
    assert CopiesUpTo(files, 1) == One(Staging(Scratch(0)) in files);
    assert CopiesUpTo(files, 2) == CopiesUpTo(files, 1) + One(Staging(Scratch(1)) in files);
    assert LiveFilesUpTo(previous, 1) == One(HashOf(previous, SQLITE_LIVE_FILES[0]).Some?);
    assert LiveFilesUpTo(previous, 2) == LiveFilesUpTo(previous, 1) + One(HashOf(previous, SQLITE_LIVE_FILES[1]).Some?);
  }

  /** Primitives of a classification: the copies come, leave WAL mode, and go. */
  function LiveClassifySteps(previous: seq<Entry>, quiesced: Option<Hash>): nat {
    if quiesced.None? then 2 * LiveFiles(previous)
    else 2 * LiveFiles(previous) + 3 + One(HashOf(previous, SQLITE_LIVE_FILES[0]).None?)
  }

  /** Copies the live SQLite files into the staging directory, lets them be examined, and removes the copies. */
  method ClassifyLive(p: RestoreProcess, previous: seq<Entry>, quiesced: Option<Hash>, ghost plan: Plan)
    returns (s: Status)
    requires InStaging(p, plan) && StagedExactly(p.disk.files, [])
    modifies p`disk, p.fuse
    ensures InStaging(p, plan) && (s.Ok? ==> StagedExactly(p.disk.files, []))
    ensures p.fuse.Ran(s, LiveClassifySteps(previous, quiesced))
    ensures Strays(p.disk.files) != {} <==>
              quiesced.Some? && old(p.fuse.Left()).StopsIn(LiveFiles(previous) + 1, LiveFiles(previous) + 3)
  {
    ghost var cut, steps := p.fuse.Left(), CopySteps(previous, quiesced);
    s := CopyAndQuiesce(p, previous, quiesced, plan);
    ghost var next := p.fuse.Left();
    if !s.Ok? {
      RunsShort(cut, next, s, steps, LiveClassifySteps(previous, quiesced));
      return;
    }
    ghost var copies := Copies(p.disk.files);
    s := DropCopies(p, plan);
    RunsOn(cut, next, p.fuse.Left(), s, steps, copies);
  }

  function CopySteps(previous: seq<Entry>, quiesced: Option<Hash>): nat {
    LiveFiles(previous) + if quiesced.Some? then 3 else 0
  }

  method CopyAndQuiesce(p: RestoreProcess, previous: seq<Entry>, quiesced: Option<Hash>, ghost plan: Plan)
    returns (s: Status)
    requires InStaging(p, plan) && StagedExactly(p.disk.files, [])
    modifies p`disk, p.fuse
    ensures InStaging(p, plan) && p.fuse.Ran(s, CopySteps(previous, quiesced))
    ensures Strays(p.disk.files) != {} <==>
              quiesced.Some? && old(p.fuse.Left()).StopsIn(LiveFiles(previous) + 1, LiveFiles(previous) + 3)
    ensures s.Ok? ==>
              && CopiesOnly(p.disk.files)
              && CopySteps(previous, quiesced) + Copies(p.disk.files) == LiveClassifySteps(previous, quiesced)
  {
    ghost var cut, steps := p.fuse.Left(), LiveFiles(previous);
    s := CopyLive(p, previous, plan);
    ghost var next := p.fuse.Left();
    if !s.Ok? {
      RunsShort(cut, next, s, steps, CopySteps(previous, quiesced));
      return;
    }
    if quiesced.Some? {
      StopsLater(cut, steps, 1, 3);
      s := QuiesceCopy(p, quiesced.value, plan);
      RunsOn(cut, next, p.fuse.Left(), s, steps, 3);
    }
    if s.Ok? { CopiesOfLive(p.disk.files, previous); }
  }

  /** Nothing in the staging directory but copies of the live SQLite files. */
  ghost predicate CopiesOnly(files: Files) {
    && (forall leaf: Leaf :: !leaf.Scratch? || leaf.index >= CLASSIFICATION_FILES ==> Staging(leaf) !in files)
    && Strays(files) == {}
  }

  /** The copies of the first `count` live files. */
  ghost predicate Copied(files: Files, previous: seq<Entry>, count: nat) {
    forall i :: 0 <= i < CLASSIFICATION_FILES ==>
      (Staging(Scratch(i)) in files <==> i < count && HashOf(previous, SQLITE_LIVE_FILES[i]).Some?)
  }

  method CopyLive(p: RestoreProcess, previous: seq<Entry>, ghost plan: Plan) returns (s: Status)
    requires InStaging(p, plan) && StagedExactly(p.disk.files, [])
    modifies p`disk, p.fuse
    ensures InStaging(p, plan) && CopiesOnly(p.disk.files)
    ensures p.fuse.Ran(s, LiveFiles(previous))
    ensures s.Ok? ==> Copied(p.disk.files, previous, CLASSIFICATION_FILES)
    ensures s.Ok? ==>
              && (Staging(Scratch(0)) in p.disk.files <==> HashOf(previous, "vault.db") != None)
              && (Staging(Scratch(1)) in p.disk.files <==> HashOf(previous, "vault.db-wal") != None)
              && (Staging(Scratch(2)) in p.disk.files <==> HashOf(previous, "vault.db-shm") != None)
  {
    StagedElsewhere(p.disk.files);
    ghost var cut := p.fuse.Left();
    var index := 0;
    while index < CLASSIFICATION_FILES
      invariant index <= CLASSIFICATION_FILES && InStaging(p, plan) && CopiesOnly(p.disk.files)
      invariant Copied(p.disk.files, previous, index)
      invariant Runs(cut, p.fuse.Left(), Ok, LiveFilesUpTo(previous, index))
    {
      s := CopyNext(p, previous, index, cut, plan);
      if !s.Ok? { return; }
      index := index + 1;
    }
    s := Ok;
  }

  /** The copy of one live file, if it is there. */
  method CopyNext(p: RestoreProcess, previous: seq<Entry>, index: nat, ghost cut: Cut, ghost plan: Plan)
    returns (s: Status)
    requires index < CLASSIFICATION_FILES && InStaging(p, plan) && CopiesOnly(p.disk.files)
    requires Copied(p.disk.files, previous, index) && Runs(cut, p.fuse.Left(), Ok, LiveFilesUpTo(previous, index))
    modifies p`disk, p.fuse
    ensures InStaging(p, plan) && CopiesOnly(p.disk.files)
    ensures Runs(cut, p.fuse.Left(), s, LiveFilesUpTo(previous, if s.Ok? then index + 1 else CLASSIFICATION_FILES))
    ensures s.Ok? ==> Copied(p.disk.files, previous, index + 1)
  {
    ghost var next, steps := p.fuse.Left(), LiveFilesUpTo(previous, index);
    var live := HashOf(previous, SQLITE_LIVE_FILES[index]);
    if live.None? { return Ok; }
    s := Put(p, Scratch(index), live.value, plan);
    RunsOn(cut, next, p.fuse.Left(), s, steps, 1);
    if !s.Ok? {
      LiveFilesGrow(previous, index + 1, CLASSIFICATION_FILES);
      RunsShort(cut, p.fuse.Left(), s, steps + 1, LiveFiles(previous));
    }
  }

  /** Leaving WAL mode rewrites the header of the copy under a rollback journal, which is left behind exactly by a cut
      between its creation and its removal. */
  method QuiesceCopy(p: RestoreProcess, quiesced: Hash, ghost plan: Plan) returns (s: Status)
    requires InStaging(p, plan) && CopiesOnly(p.disk.files)
    modifies p`disk, p.fuse
    ensures InStaging(p, plan) && p.fuse.Ran(s, 3)
    ensures Strays(p.disk.files) == if old(p.fuse.Left()).StopsIn(1, 3) then {ClassificationJournal} else {}
    ensures s.Ok? ==>
              && CopiesOnly(p.disk.files) && Staging(Scratch(0)) in p.disk.files
              && forall i :: 1 <= i < CLASSIFICATION_FILES ==>
                   (Staging(Scratch(i)) in p.disk.files <==> Staging(Scratch(i)) in old(p.disk.files))
  {
    assert Staging(BundleTemporary) !in p.disk.files && Staging(ClassificationJournal) !in p.disk.files;
    ghost var cut := p.fuse.Left();
    s := Put(p, ClassificationJournal, 0, plan);
    ghost var next := p.fuse.Left();
    if !s.Ok? {
      RunsShort(cut, next, s, 1, 3);
      return;
    }
    ReachesLater(cut, 1, 2);
    s := FinishQuiesce(p, quiesced, plan);
    RunsOn(cut, next, p.fuse.Left(), s, 1, 2);
  }

  method FinishQuiesce(p: RestoreProcess, quiesced: Hash, ghost plan: Plan) returns (s: Status)
    requires InStaging(p, plan) && Staging(ClassificationJournal) in p.disk.files
    modifies p`disk, p.fuse
    ensures InStaging(p, plan) && p.fuse.Ran(s, 2)
    ensures forall leaf :: leaf != Scratch(0) && leaf != ClassificationJournal ==>
              (Staging(leaf) in p.disk.files <==> Staging(leaf) in old(p.disk.files))
    ensures Staging(ClassificationJournal) in p.disk.files <==> !s.Ok?
    ensures s.Ok? ==> Staging(Scratch(0)) in p.disk.files
  {
    ghost var cut := p.fuse.Left();
    s := Put(p, Scratch(0), quiesced, plan);
    ghost var next := p.fuse.Left();
    if !s.Ok? {
      RunsShort(cut, next, s, 1, 2);
      return;
    }
    s := Drop(p, ClassificationJournal, plan);
    RunsOn(cut, next, p.fuse.Left(), s, 1, 1);
  }

  method DropCopies(p: RestoreProcess, ghost plan: Plan) returns (s: Status)
    requires InStaging(p, plan) && CopiesOnly(p.disk.files)
    modifies p`disk, p.fuse
    ensures InStaging(p, plan) && CopiesOnly(p.disk.files) && (s.Ok? ==> StagedExactly(p.disk.files, []))
    ensures p.fuse.Ran(s, Copies(old(p.disk.files)))
  {
    ghost var cut, files := p.fuse.Left(), p.disk.files;
    var index := 0;
    while index < CLASSIFICATION_FILES
      invariant index <= CLASSIFICATION_FILES && InStaging(p, plan) && CopiesOnly(p.disk.files)
      invariant Dropped(p.disk.files, files, index) && Runs(cut, p.fuse.Left(), Ok, CopiesUpTo(files, index))
    {
      s := DropNext(p, index, files, cut, plan);
      if !s.Ok? { return; }
      index := index + 1;
    }
    StagedElsewhere(p.disk.files);
    s := Ok;
  }

  /** All copies but the first `count`. */
  ghost predicate Dropped(files: Files, before: Files, count: nat) {
    forall i :: 0 <= i < CLASSIFICATION_FILES ==>
      (Staging(Scratch(i)) in files <==> count <= i && Staging(Scratch(i)) in before)
  }

  method DropNext(p: RestoreProcess, index: nat, ghost files: Files, ghost cut: Cut, ghost plan: Plan)
    returns (s: Status)
    requires index < CLASSIFICATION_FILES && InStaging(p, plan) && CopiesOnly(p.disk.files)
    requires Dropped(p.disk.files, files, index) && Runs(cut, p.fuse.Left(), Ok, CopiesUpTo(files, index))
    modifies p`disk, p.fuse
    ensures InStaging(p, plan) && CopiesOnly(p.disk.files)
    ensures Runs(cut, p.fuse.Left(), s, CopiesUpTo(files, if s.Ok? then index + 1 else CLASSIFICATION_FILES))
    ensures s.Ok? ==> Dropped(p.disk.files, files, index + 1)
  {
    ghost var next, steps := p.fuse.Left(), CopiesUpTo(files, index);
    ghost var copies := One(Staging(Scratch(index)) in p.disk.files);
    s := Drop(p, Scratch(index), plan);
    RunsOn(cut, next, p.fuse.Left(), s, steps, copies);
    if !s.Ok? {
      CopiesGrow(files, index + 1, CLASSIFICATION_FILES);
      RunsShort(cut, p.fuse.Left(), s, steps + copies, Copies(files));
    }
  }

  lemma StagedElsewhere(files: Files)
    ensures forall leaf :: Staging(leaf) in files <==> Content(files, Staging(leaf)).Some?
  {
  }

  /** Copies one backup file to NAME.partial and renames it to NAME. */
  method StageFile(p: RestoreProcess, entry: Entry, ghost plan: Plan) returns (s: Status)
    requires InStaging(p, plan) && Strays(p.disk.files) == {}
    requires StagingLeaf(plan.staged, Partial(entry.name)) && Staging(Partial(entry.name)) !in p.disk.files
    modifies p`disk, p.fuse
    ensures InStaging(p, plan) && p.fuse.Ran(s, 2) && Strays(p.disk.files) == {}
    ensures s.Ok? ==> p.disk.files == old(p.disk.files)[Staging(Plain(entry.name)) := entry.hash]
  {
    ghost var cut := p.fuse.Left();
    s := Put(p, Partial(entry.name), entry.hash, plan);
    ghost var next := p.fuse.Left();
    if !s.Ok? {
      RunsShort(cut, next, s, 1, 2);
      return;
    }
    s := Move(p, Partial(entry.name), Plain(entry.name), plan);
    RunsOn(cut, next, p.fuse.Left(), s, 1, 1);
  }

  /** Copies every backup file to NAME.partial and renames it to NAME. */
  method StageFiles(p: RestoreProcess, source: seq<Entry>, ghost plan: Plan) returns (s: Status)
    requires InStaging(p, plan) && StagedExactly(p.disk.files, [])
    requires Distinct(source) && SameNames(source, plan.staged)
    modifies p`disk, p.fuse
    ensures InStaging(p, plan) && (s.Ok? ==> StagedExactly(p.disk.files, source))
    ensures p.fuse.Ran(s, 2 * |source|) && Strays(p.disk.files) == {}
  {
    ghost var cut := p.fuse.Left();
    StagedElsewhere(p.disk.files);
    var index := 0;
    while index < |source|
      invariant Runs(cut, p.fuse.Left(), Ok, 2 * index)
      invariant Strays(p.disk.files) == {}
      invariant index <= |source| && InStaging(p, plan) && StagedExactly(p.disk.files, source[..index])
    {
      var name := source[index].name;
      HashOfNone(plan.staged, plan.staged[index].name);
      ghost var next := p.fuse.Left();
      s := StageFile(p, source[index], plan);
      RunsOn(cut, next, p.fuse.Left(), s, 2 * index, 2);
      if !s.Ok? {
        RunsShort(cut, p.fuse.Left(), s, 2 * index + 2, 2 * |source|);
        return;
      }
      forall leaf ensures Content(p.disk.files, Staging(leaf)) ==
                          if leaf.Plain? then HashOf(source[..index + 1], leaf.name) else None {
        if leaf.Plain? { HashOfSplit(source, index, leaf.name); }
      }
      index := index + 1;
    }
    assert source[..index] == source;
    s := Ok;
  }

  /** Staging while a portable restore works on NAME.portable: plain files as given, and portable files only
      for names under conversion. */
  ghost predicate Converting(files: Files, plain: seq<Entry>, converted: seq<Entry>) {
    forall leaf: Leaf ::
      match leaf
      case Plain(name) => Content(files, Staging(leaf)) == HashOf(plain, name)
      case Portable(name) => Content(files, Staging(leaf)).Some? ==> HashOf(converted, name).Some?
      case _ => Content(files, Staging(leaf)) == None
  }

  /** The first `count` conversions are finished. */
  ghost predicate ConvertedUpTo(files: Files, converted: seq<Entry>, contents: seq<Entry>, count: nat) {
    count <= |converted| &&
    forall i :: 0 <= i < count ==>
      Content(files, Staging(Portable(converted[i].name))) == HashOf(contents, converted[i].name)
  }

  /** Converts copies of the staged key bundle and database, then replaces the staged files by them. A cut while the
      key bundle is being replaced, and only such a cut, leaves its temporary file. */
  method ConvertPortable(p: RestoreProcess, source: seq<Entry>, converted: seq<Entry>, ghost plan: Plan)
    returns (s: Status)
    requires InStaging(p, plan) && StagedExactly(p.disk.files, source)
    requires Distinct(source) && Distinct(converted) && plan.staged == Converted(source, converted)
    requires forall i :: 0 <= i < |converted| ==> HashOf(source, converted[i].name).Some?
    modifies p`disk, p.fuse
    ensures InStaging(p, plan) && (s.Ok? ==> StagedExactly(p.disk.files, plan.staged))
    ensures p.fuse.Spent(s, ConversionSteps(|converted|))
    ensures Strays(p.disk.files) != {} <==> SplitsReplacement(converted, old(p.fuse.Left()))
  {
    ghost var cut, steps := p.fuse.Left(), |converted| + 6;
    PositionIs(converted, KEY_BUNDLE);
    s := PreparePortables(p, source, converted, plan);
    if !s.Ok? { return; }
    StopsLater(cut, steps, Position(converted, KEY_BUNDLE) + 1, Position(converted, KEY_BUNDLE) + 2);
    s := WritePortables(p, source, converted, plan);
    if !s.Ok? { return; }
    s := ReplaceStaged(p, source, converted, plan);
  }

  /** The written portable files replace the staged originals. */
  method ReplaceStaged(p: RestoreProcess, source: seq<Entry>, converted: seq<Entry>, ghost plan: Plan)
    returns (s: Status)
    requires Writing(p, source, converted, |converted|, plan) && Distinct(source)
    requires plan.staged == Converted(source, converted)
    requires forall i :: 0 <= i < |converted| ==> HashOf(source, converted[i].name).Some?
    modifies p`disk, p.fuse
    ensures InStaging(p, plan) && (s.Ok? ==> StagedExactly(p.disk.files, plan.staged))
    ensures p.fuse.Spent(s, |converted|) && Strays(p.disk.files) == {}
  {
    ConvertedLeaves(source, converted, plan);
    forall i | 0 <= i < |converted| ensures HashOf(converted, converted[i].name) == Some(converted[i].hash) {
      HashOfAt(converted, i);
    }
    PublishedPortablesStart(p.disk.files, source, converted);
    s := PublishPortables(p, source, converted, plan);
    if s.Ok? { PublishedPortablesEnd(p.disk.files, source, converted); }
  }

  /** The conversion stops between the temporary file of the key bundle and its rename. */
  predicate SplitsReplacement(converted: seq<Entry>, cut: Cut) {
    var position := Position(converted, KEY_BUNDLE);
    position < |converted| && cut.StopsIn(|converted| + 6 + position + 1, |converted| + 6 + position + 2)
  }

  /** The portable copies, and the work of SQLite on them. */
  method PreparePortables(p: RestoreProcess, source: seq<Entry>, converted: seq<Entry>, ghost plan: Plan)
    returns (s: Status)
    requires InStaging(p, plan) && StagedExactly(p.disk.files, source)
    requires Distinct(source) && Distinct(converted) && plan.staged == Converted(source, converted)
    requires forall i :: 0 <= i < |converted| ==> HashOf(source, converted[i].name).Some?
    modifies p`disk, p.fuse
    ensures InStaging(p, plan) && (s.Ok? ==> Writing(p, source, converted, 0, plan))
    ensures p.fuse.Ran(s, |converted| + 6) && Strays(p.disk.files) == {}
  {
    ghost var cut := p.fuse.Left();
    ConvertedLeaves(source, converted, plan);
    ConvertingHasNoStrays(p.disk.files, source, converted);
    s := CopyPortables(p, source, converted, plan);
    ghost var next := p.fuse.Left();
    if !s.Ok? {
      RunsShort(cut, next, s, |converted|, |converted| + 6);
      return;
    }
    s := RunSidecars(p, source, converted, plan);
    RunsOn(cut, next, p.fuse.Left(), s, |converted|, 6);
  }

  /** Primitives of one conversion: copies, sidecars, new contents, renames. */
  function ConversionSteps(count: nat): nat { 4 * count + 6 }

  lemma ConvertingHasNoStrays(files: Files, source: seq<Entry>, converted: seq<Entry>)
    requires Converting(files, source, converted)
    ensures Strays(files) == {}
  {
    forall leaf | Stray(leaf) ensures Staging(leaf) !in files {
      assert Content(files, Staging(leaf)) == None;
    }
  }

  /** Copies every staged file under conversion to its portable name. */
  method CopyPortables(p: RestoreProcess, source: seq<Entry>, converted: seq<Entry>, ghost plan: Plan)
    returns (s: Status)
    requires InStaging(p, plan) && Converting(p.disk.files, source, converted) && Distinct(converted)
    requires forall i :: 0 <= i < |converted| ==>
               HashOf(source, converted[i].name).Some? && StagingLeaf(plan.staged, Portable(converted[i].name))
    modifies p`disk, p.fuse
    ensures InStaging(p, plan) && p.fuse.Ran(s, |converted|)
    ensures s.Ok? ==> Converting(p.disk.files, source, converted)
    ensures Strays(p.disk.files) == Strays(old(p.disk.files))
  {
    ghost var cut := p.fuse.Left();
    var index := 0;
    while index < |converted|
      invariant Runs(cut, p.fuse.Left(), Ok, index)
      invariant index <= |converted| && InStaging(p, plan) && Converting(p.disk.files, source, converted)
      invariant Strays(p.disk.files) == Strays(old(p.disk.files))
    {
      HashOfAt(converted, index);
      ghost var next := p.fuse.Left();
      s := Put(p, Portable(converted[index].name), HashOf(source, converted[index].name).value, plan);
      RunsOn(cut, next, p.fuse.Left(), s, index, 1);
      if !s.Ok? {
        RunsShort(cut, p.fuse.Left(), s, index + 1, |converted|);
        return;
      }
      index := index + 1;
    }
    s := Ok;
  }

  /** The temporary file of the key bundle, and its rename. */
  method ReplaceBundle(p: RestoreProcess, entry: Entry, ghost plan: Plan) returns (s: Status)
    requires InStaging(p, plan) && Strays(p.disk.files) == {} && StagingLeaf(plan.staged, Portable(entry.name))
    requires Staging(BundleTemporary) !in p.disk.files
    modifies p`disk, p.fuse
    ensures InStaging(p, plan) && p.fuse.Ran(s, 2)
    ensures Strays(p.disk.files) == if old(p.fuse.Left()).StopsIn(1, 2) then {BundleTemporary} else {}
    ensures s.Ok? ==> p.disk.files == old(p.disk.files)[Staging(Portable(entry.name)) := entry.hash]
  {
    ghost var cut := p.fuse.Left();
    s := Put(p, BundleTemporary, entry.hash, plan);
    ghost var next := p.fuse.Left();
    if !s.Ok? {
      RunsShort(cut, next, s, 1, 2);
      return;
    }
    ReachesLater(cut, 1, 1);
    s := Move(p, BundleTemporary, Portable(entry.name), plan);
    RunsOn(cut, next, p.fuse.Left(), s, 1, 1);
  }

  /** The new content of one portable file: a database is updated in place, the key bundle is replaced by the rename
      of a temporary file that only this step knows; a cut between the two leaves that file, and nothing else does. */
  method WritePortable(p: RestoreProcess, entry: Entry, ghost plan: Plan) returns (s: Status)
    requires InStaging(p, plan) && Strays(p.disk.files) == {} && StagingLeaf(plan.staged, Portable(entry.name))
    modifies p`disk, p.fuse
    ensures InStaging(p, plan) && p.fuse.Ran(s, 1 + One(entry.name == KEY_BUNDLE))
    ensures Strays(p.disk.files) ==
              if entry.name == KEY_BUNDLE && old(p.fuse.Left()).StopsIn(1, 2) then {BundleTemporary} else {}
    ensures s.Ok? ==> p.disk.files == old(p.disk.files)[Staging(Portable(entry.name)) := entry.hash]
  {
    assert BundleTemporary !in Strays(p.disk.files);
    if entry.name == KEY_BUNDLE {
      s := ReplaceBundle(p, entry, plan);
    } else {
      s := Put(p, Portable(entry.name), entry.hash, plan);
    }
  }

  /** The index of a name, or the length of the list. */
  function Position(entries: seq<Entry>, name: Name): nat {
    if entries == [] || entries[0].name == name then 0 else 1 + Position(entries[1..], name)
  }

  lemma {:induction false} PositionIs(entries: seq<Entry>, name: Name)
    requires Distinct(entries)
    ensures Position(entries, name) <= |entries|
    ensures HashOf(entries, name).Some? <==> Position(entries, name) < |entries|
    ensures forall i :: 0 <= i < |entries| ==> (entries[i].name == name <==> i == Position(entries, name))
  {
    if entries == [] {
    } else {
      PositionIs(entries[1..], name);
      forall i | 0 < i < |entries| ensures entries[i] == entries[1..][i - 1] {
      }
    }
  }

  /** The portable files are being given their new contents, the first `index` of them by now. */
  ghost predicate Writing(p: RestoreProcess, source: seq<Entry>, converted: seq<Entry>, index: nat, plan: Plan)
    reads p
  {
    && InStaging(p, plan) && Strays(p.disk.files) == {} && Distinct(converted)
    && (forall i :: 0 <= i < |converted| ==> StagingLeaf(plan.staged, Portable(converted[i].name)))
    && Converting(p.disk.files, source, converted) && ConvertedUpTo(p.disk.files, converted, converted, index)
  }

  /** Steps that give the first `index` files their new contents. */
  function WriteSteps(converted: seq<Entry>, index: nat): nat {
    index + One(Position(converted, KEY_BUNDLE) < index)
  }

  /** The key bundle is being replaced. */
  predicate SplitsWrite(converted: seq<Entry>, cut: Cut) {
    var position := Position(converted, KEY_BUNDLE);
    position < |converted| && cut.StopsIn(position + 1, position + 2)
  }

  method WriteNext(p: RestoreProcess, source: seq<Entry>, converted: seq<Entry>, index: nat, ghost cut: Cut,
                   ghost plan: Plan)
    returns (s: Status)
    requires index < |converted| && Writing(p, source, converted, index, plan)
    requires Runs(cut, p.fuse.Left(), Ok, WriteSteps(converted, index))
    modifies p`disk, p.fuse
    ensures InStaging(p, plan) && (s.Ok? ==> Writing(p, source, converted, index + 1, plan))
    ensures Runs(cut, p.fuse.Left(), s, WriteSteps(converted, if s.Ok? then index + 1 else |converted|))
    ensures !s.Ok? ==> (Strays(p.disk.files) != {} <==> SplitsWrite(converted, cut))
  {
    HashOfAt(converted, index);
    ghost var next := p.fuse.Left();
    s := WritePortable(p, converted[index], plan);
    WriteStepsGrow(converted, index, cut, next, p.fuse.Left(), s);
  }

  /** One more file written, or the loop stops here, in the middle of the key bundle or not. */
  lemma WriteStepsGrow(converted: seq<Entry>, index: nat, cut: Cut, next: Cut, last: Cut, s: Status)
    requires Distinct(converted) && index < |converted|
    requires Runs(cut, next, Ok, WriteSteps(converted, index))
    requires Runs(next, last, s, 1 + One(converted[index].name == KEY_BUNDLE))
    ensures Runs(cut, last, s, WriteSteps(converted, if s.Ok? then index + 1 else |converted|))
    ensures !s.Ok? ==>
              (SplitsWrite(converted, cut) <==> converted[index].name == KEY_BUNDLE && next.StopsIn(1, 2))
  {
    PositionIs(converted, KEY_BUNDLE);
    var steps, more := WriteSteps(converted, index), 1 + One(converted[index].name == KEY_BUNDLE);
    StopsLater(cut, steps, 1, 2);
    RunsOn(cut, next, last, s, steps, more);
    if !s.Ok? {
      ReachesLater(cut, steps, more);
      RunsShort(cut, last, s, steps + more, WriteSteps(converted, |converted|));
    }
  }

  /** Gives every file under conversion its new content. */
  method WritePortables(p: RestoreProcess, source: seq<Entry>, converted: seq<Entry>, ghost plan: Plan)
    returns (s: Status)
    requires Writing(p, source, converted, 0, plan)
    modifies p`disk, p.fuse
    ensures InStaging(p, plan) && (s.Ok? ==> Writing(p, source, converted, |converted|, plan))
    ensures p.fuse.Ran(s, WriteSteps(converted, |converted|))
    ensures Strays(p.disk.files) != {} <==> SplitsWrite(converted, old(p.fuse.Left()))
  {
    ghost var cut := p.fuse.Left();
    var index := 0;
    while index < |converted|
      invariant index <= |converted| && Writing(p, source, converted, index, plan)
      invariant Runs(cut, p.fuse.Left(), Ok, WriteSteps(converted, index))
    {
      s := WriteNext(p, source, converted, index, cut, plan);
      if !s.Ok? { return; }
      index := index + 1;
    }
    s := Ok;
  }

  /** Renames every converted file over its staged original. */
  method PublishPortables(p: RestoreProcess, source: seq<Entry>, converted: seq<Entry>, ghost plan: Plan)
    returns (s: Status)
    requires InStaging(p, plan) && PublishedPortables(p.disk.files, source, converted, 0) && Distinct(converted)
    requires forall i :: 0 <= i < |converted| ==> StagingLeaf(plan.staged, Plain(converted[i].name))
    modifies p`disk, p.fuse
    ensures InStaging(p, plan) && (s.Ok? ==> PublishedPortables(p.disk.files, source, converted, |converted|))
    ensures p.fuse.Spent(s, |converted|) && Strays(p.disk.files) == {}
  {
    PublishedHaveNoStrays(p.disk.files, source, converted, 0);
    var index := 0;
    while index < |converted|
      invariant p.fuse.Used(Ok, index)
      invariant index <= |converted| && InStaging(p, plan) && Strays(p.disk.files) == {}
      invariant PublishedPortables(p.disk.files, source, converted, index)
    {
      ghost var files := p.disk.files;
      HashOfSplit(converted, index, "");
      assert Content(files, Staging(Portable(converted[index].name))) == Some(converted[index].hash);
      s := Move(p, Portable(converted[index].name), Plain(converted[index].name), plan);
      if !s.Ok? { return; }
      PublishedPortablesStep(files, p.disk.files, source, converted, index);
      index := index + 1;
    }
    s := Ok;
  }

  lemma PublishedHaveNoStrays(files: Files, source: seq<Entry>, converted: seq<Entry>, count: nat)
    requires PublishedPortables(files, source, converted, count)
    ensures Strays(files) == {}
  {
    forall leaf | Stray(leaf) ensures Staging(leaf) !in files {
      assert Content(files, Staging(leaf)) == None;
    }
  }

  lemma ConvertedLeaves(source: seq<Entry>, converted: seq<Entry>, plan: Plan)
    requires plan.staged == Converted(source, converted)
    requires forall i :: 0 <= i < |converted| ==> HashOf(source, converted[i].name).Some?
    ensures forall i :: 0 <= i < |converted| ==>
              && StagingLeaf(plan.staged, Portable(converted[i].name))
              && StagingLeaf(plan.staged, Plain(converted[i].name))
  {
    forall i | 0 <= i < |converted| ensures HashOf(plan.staged, converted[i].name).Some? {
      HashOfNone(source, converted[i].name);
      HashOfNone(plan.staged, converted[i].name);
    }
  }

  method RunSidecar(p: RestoreProcess, leaf: Leaf, source: seq<Entry>, converted: seq<Entry>, ghost plan: Plan)
    returns (s: Status)
    requires leaf.Scratch? && leaf.index < SCRATCH_FILES
    requires InStaging(p, plan) && Converting(p.disk.files, source, converted)
    modifies p`disk, p.fuse
    ensures InStaging(p, plan) && (s.Ok? ==> Converting(p.disk.files, source, converted))
    ensures p.fuse.Ran(s, 2) && Strays(p.disk.files) == Strays(old(p.disk.files))
  {
    ghost var cut := p.fuse.Left();
    s := Put(p, leaf, 0, plan);
    ghost var next := p.fuse.Left();
    if !s.Ok? {
      RunsShort(cut, next, s, 1, 2);
      return;
    }
    s := Drop(p, leaf, plan);
    RunsOn(cut, next, p.fuse.Left(), s, 1, 1);
  }

  /** SQLite sidecars of the converted database come and go. */
  method RunSidecars(p: RestoreProcess, source: seq<Entry>, converted: seq<Entry>, ghost plan: Plan) returns (s: Status)
    requires InStaging(p, plan) && Converting(p.disk.files, source, converted)
    modifies p`disk, p.fuse
    ensures InStaging(p, plan) && (s.Ok? ==> Converting(p.disk.files, source, converted))
    ensures p.fuse.Ran(s, 6) && Strays(p.disk.files) == Strays(old(p.disk.files))
  {
    ghost var cut := p.fuse.Left();
    var index := CLASSIFICATION_FILES;
    while index < SCRATCH_FILES
      invariant Runs(cut, p.fuse.Left(), Ok, 2 * (index - CLASSIFICATION_FILES))
      invariant Strays(p.disk.files) == Strays(old(p.disk.files))
      invariant CLASSIFICATION_FILES <= index <= SCRATCH_FILES
      invariant InStaging(p, plan) && Converting(p.disk.files, source, converted)
    {
      ghost var next, steps := p.fuse.Left(), 2 * (index - CLASSIFICATION_FILES);
      s := RunSidecar(p, Scratch(index), source, converted, plan);
      RunsOn(cut, next, p.fuse.Left(), s, steps, 2);
      if !s.Ok? {
        RunsShort(cut, p.fuse.Left(), s, steps + 2, 6);
        return;
      }
      index := index + 1;
    }
    s := Ok;
  }

  /** The first `count` converted files have replaced their staged originals. */
  ghost predicate PublishedPortables(files: Files, source: seq<Entry>, converted: seq<Entry>, count: nat) {
    count <= |converted| &&
    forall leaf: Leaf ::
      Content(files, Staging(leaf)) ==
      match leaf
      case Plain(name) =>
        if HashOf(converted[..count], name).Some? then HashOf(converted[..count], name) else HashOf(source, name)
      case Portable(name) => HashOf(converted[count..], name)
      case _ => None
  }

  lemma PublishedPortablesStart(files: Files, source: seq<Entry>, converted: seq<Entry>)
    requires Distinct(converted) && Converting(files, source, converted)
    requires ConvertedUpTo(files, converted, converted, |converted|)
    ensures PublishedPortables(files, source, converted, 0)
  {
    assert converted[0..] == converted;
    forall name ensures Content(files, Staging(Portable(name))) == HashOf(converted, name) {
      HashOfNone(converted, name);
      if HashOf(converted, name).Some? {
        var i :| 0 <= i < |converted| && converted[i].name == name;
        HashOfAt(converted, i);
      }
    }
  }

  lemma PublishedPortablesStep(files: Files, files': Files, source: seq<Entry>, converted: seq<Entry>, i: nat)
    requires Distinct(converted) && i < |converted| && PublishedPortables(files, source, converted, i)
    requires Content(files, Staging(Portable(converted[i].name))) == Some(converted[i].hash)
    requires files' == (files - {Staging(Portable(converted[i].name))})[
                         Staging(Plain(converted[i].name)) := converted[i].hash]
    ensures PublishedPortables(files', source, converted, i + 1)
  {
    var count := i + 1;
    forall leaf: Leaf
      ensures Content(files', Staging(leaf)) ==
              match leaf
              case Plain(name) =>
                if HashOf(converted[..count], name).Some? then HashOf(converted[..count], name)
                else HashOf(source, name)
              case Portable(name) => HashOf(converted[count..], name)
              case _ => None
    {
      if leaf.Plain? || leaf.Portable? { HashOfSplit(converted, i, LeafName(leaf)); }
      if leaf != Portable(converted[i].name) && leaf != Plain(converted[i].name) {
        assert Content(files', Staging(leaf)) == Content(files, Staging(leaf));
      }
    }
  }

  lemma PublishedPortablesEnd(files: Files, source: seq<Entry>, converted: seq<Entry>)
    requires Distinct(source) && PublishedPortables(files, source, converted, |converted|)
    requires forall i :: 0 <= i < |converted| ==> HashOf(source, converted[i].name).Some?
    ensures StagedExactly(files, Converted(source, converted))
  {
    assert converted[..|converted|] == converted && converted[|converted|..] == [];
    var staged := Converted(source, converted);
    forall name
      ensures HashOf(staged, name) ==
                if HashOf(converted, name).Some? then HashOf(converted, name) else HashOf(source, name)
    {
      HashOfNone(source, name);
      HashOfNone(staged, name);
      HashOfNone(converted, name);
      if HashOf(source, name).Some? {
        var i :| 0 <= i < |source| && source[i].name == name;
        HashOfAt(source, i);
        HashOfAt(staged, i);
      }
    }
  }

  /** The staged hashes as they are on disk. */
  method HashStaged(p: RestoreProcess, names: seq<Entry>, ghost plan: Plan) returns (hashes: seq<Entry>)
    requires plan.Valid() && StagedExactly(p.disk.files, plan.staged) && SameNames(names, plan.staged)
    ensures hashes == plan.staged
  {
    hashes := [];
    var index := 0;
    while index < |names|
      invariant index <= |names| && hashes == plan.staged[..index]
    {
      HashOfAt(plan.staged, index);
      assert Content(p.disk.files, Staging(Plain(names[index].name))) == Some(plan.staged[index].hash);
      hashes := hashes + [Entry(names[index].name, p.disk.files[Staging(Plain(names[index].name))])];
      index := index + 1;
    }
  }

  /** With staging complete and nothing published, the directory is the prefix state of length zero. */
  lemma StagedIsPrefixZero(plan: Plan, files: Files)
    requires plan.Valid() && LiveIs(plan, Old, files) && StagedExactly(files, plan.staged)
    requires forall name :: Previous(name) !in files
    ensures plan.At(0, files)
  {
    assert plan.staged[0..] == plan.staged;
    forall path ensures Content(files, path) == plan.ContentAt(0, path) {
      if path.Staging? { assert Content(files, Staging(path.leaf)) == Content(files, path); }
    }
  }

  /** A durable publishing journal with exactly the first `i` renames in effect. */
  ghost predicate Publishing(p: RestoreProcess, plan: Plan, i: nat)
    reads p
  {
    && plan.Valid() && p.Loaded() && p.disk.journalKey.WholeKey?
    && p.journal.phase.PublishingPhase? && PublishingPhase in p.written
    && p.written <= {StagingPhase, PublishingPhase}
    && JournalFor(plan, p.journal) && p.disk.stagingDirectory && p.disk.previousDirectory
    && plan.At(i, p.disk.files)
  }

  lemma PublishingIsSafe(p: RestoreProcess, plan: Plan, i: nat)
    requires Publishing(p, plan, i)
    ensures p.Safe(plan, Old) && !Blocked(p.disk)
  {
    PrefixHasNoStrays(plan, i, p.disk.files);
    SameJournalSymmetric(p.disk.journal.value, p.journal);
    SameJournalKeepsShape(plan, p.journal, p.disk.journal.value);
  }

  /** One operation of the publication loop: on success exactly one more rename was made. */
  method PublishOne(p: RestoreProcess, index: nat, ghost plan: Plan) returns (s: Status, ghost i: nat)
    requires Publishing(p, plan, index) && index < |p.journal.operations|
    modifies p, p.fuse
    ensures Publishing(p, plan, i) && (s.Ok? ==> i == index + 1)
    ensures |p.journal.operations| == |old(p.journal).operations|
    ensures p.fuse.Spent(s, ReconcileSteps(1))
    ensures p.mutations == old(p.mutations) + (i - index) && index <= i <= index + 1
  {
    ghost var op := plan.Operations()[index];
    assert Forget(p.journal.operations[index]) == Forget(op);
    DecideIgnoresCompletion(p.disk.files, p.journal.operations[index], op, Forward);
    PublishStep(plan, index, p.disk.files);
    ghost var files := p.disk.files;
    RenameChanges(plan, index, files);
    s := p.Reconcile(index, Forward);
    SameJournalSymmetric(p.journal, old(p.journal));
    SameJournalKeepsShape(plan, old(p.journal), p.journal);
    i := if p.disk.files == files then index else index + 1;
  }

  /** A rename that is made is seen. */
  lemma RenameChanges(plan: Plan, i: nat, files: Files)
    requires plan.Valid() && i < |plan.Operations()| && plan.At(i, files)
    ensures Reconciled(files, plan.Operations()[i], Forward) != files
  {
    OperationEndsAt(plan, i);
    PublishStep(plan, i, files);
    var op := plan.Operations()[i];
    assert Content(files, op.source) == plan.ContentAt(i, op.source);
    assert Content(Reconciled(files, op, Forward), op.source) == plan.ContentAt(i + 1, op.source);
  }

  /** The publication journal. */
  method OpenPublication(p: RestoreProcess, hashes: seq<Entry>, ghost plan: Plan) returns (s: Status)
    requires InStaging(p, plan) && StagedExactly(p.disk.files, plan.staged)
    requires hashes == plan.staged && p.journal.healthy == plan.healthy
    modifies p, p.fuse
    ensures p.Safe(plan, Old) && p.disk.journal.Some? && p.written <= {StagingPhase, PublishingPhase}
    ensures s.Ok? ==> Publishing(p, plan, 0) && |p.journal.operations| == |plan.Operations()|
    ensures p.fuse.Spent(s, PERSIST_STEPS) && !Blocked(p.disk) && p.mutations == old(p.mutations)
  {
    StagedIsPrefixZero(plan, p.disk.files);
    PrefixHasNoStrays(plan, 0, p.disk.files);
    p.journal := p.journal.(
      stagedHashes := hashes,
      operations := RenameOperations(p.journal.previousHashes, hashes),
      phase := PublishingPhase);
    s := p.PersistJournal();
    if p.disk.journal == Some(p.journal) {
      assert Publishing(p, plan, 0);
      PublishingIsSafe(p, plan, 0);
    }
  }

  /** The publication journal and its renames, front to back: on success each of them was made, once. */
  method Publish(p: RestoreProcess, hashes: seq<Entry>, ghost plan: Plan) returns (s: Status)
    requires InStaging(p, plan) && StagedExactly(p.disk.files, plan.staged)
    requires hashes == plan.staged && p.journal.healthy == plan.healthy
    modifies p, p.fuse
    ensures p.Safe(plan, Old) && p.disk.journal.Some? && p.written <= {StagingPhase, PublishingPhase}
    ensures s.Ok? ==> Publishing(p, plan, Target(plan, New)) && p.mutations == old(p.mutations) + |plan.Operations()|
    ensures !Blocked(p.disk)
    ensures p.fuse.Spent(s, PERSIST_STEPS + ReconcileSteps(|plan.Operations()|))
  {
    s := OpenPublication(p, hashes, plan);
    if !s.Ok? { return; }
    ghost var i;
    s, i := PublishAll(p, plan);
    PublishingIsSafe(p, plan, i);
  }

  /** The publication loop; `i` renames are in effect when it stops. */
  method PublishAll(p: RestoreProcess, ghost plan: Plan) returns (s: Status, ghost i: nat)
    requires Publishing(p, plan, 0) && |p.journal.operations| == |plan.Operations()|
    modifies p, p.fuse
    ensures Publishing(p, plan, i) && (s.Ok? ==> i == |plan.Operations()|)
    ensures s.Ok? ==> p.mutations == old(p.mutations) + i
    ensures p.fuse.Spent(s, ReconcileSteps(|plan.Operations()|))
  {
    var index := 0;
    i := 0;
    while index < |p.journal.operations|
      invariant p.fuse.Used(Ok, ReconcileSteps(index))
      invariant index == i <= |p.journal.operations| == |plan.Operations()|
      invariant Publishing(p, plan, i) && p.mutations == old(p.mutations) + i
    {
      s, i := PublishOne(p, index, plan);
      if !s.Ok? { return; }
      index := index + 1;
    }
    s := Ok;
  }

  /** The commit: published files are compared with the staged hashes, then the journal says so. */
  method Commit(p: RestoreProcess, ghost plan: Plan) returns (s: Status, ghost outcome: Outcome)
    requires Publishing(p, plan, Target(plan, New))
    modifies p, p.fuse
    ensures p.Safe(plan, outcome) && p.disk.journal.Some?
    ensures p.written <= {StagingPhase, PublishingPhase, CommittedPhase}
    ensures s.Ok? ==> outcome.New? && p.disk.journal == Some(p.journal) && p.journal.phase.CommittedPhase?
    ensures outcome.New? ==> p.disk.journal == Some(p.journal) && p.journal.phase.CommittedPhase?
    ensures p.fuse.Spent(s, PERSIST_STEPS) && !Blocked(p.disk)
  {
    outcome := Old;
    PublishingIsSafe(p, plan, Target(plan, New));
    PublishedContents(plan, p.disk.files);
    var index := 0;
    while index < |p.journal.stagedHashes| {
      var entry := p.journal.stagedHashes[index];
      if Live(entry.name) !in p.disk.files || p.disk.files[Live(entry.name)] != entry.hash { return Threw, Old; }
      index := index + 1;
    }
    p.journal := p.journal.(phase := CommittedPhase);
    s := p.PersistJournal();
    if p.disk.journal == Some(p.journal) { outcome := New; }
  }

  /** What a caller gives a restore: the live inventory, the verified backup, the files a portable restore converts,
      and the result of classifying the live vault. */
  datatype Request = Request(previous: seq<Entry>, source: seq<Entry>, converted: seq<Entry>, classify: bool,
                             quiesced: Option<Hash>, healthy: bool)
  {
    ghost predicate For(plan: Plan) {
      && plan.Valid() && previous == plan.previous && healthy == plan.healthy
      && plan.staged == Converted(source, converted) && Distinct(source) && Distinct(converted)
      && forall i :: 0 <= i < |converted| ==> HashOf(source, converted[i].name).Some?
    }

    /** Primitives of the classification and of the journal write behind it. */
    function ClassifySteps(): nat {
      (if classify then LiveClassifySteps(previous, quiesced) else 0) + WRITE_STEPS
    }

    function PrepareSteps(): nat { OPEN_STEPS + ClassifySteps() }

    /** The restore stops while the classification copy leaves WAL mode. */
    predicate SplitsQuiesce(cut: Cut) {
      classify && quiesced.Some? &&
      cut.StopsIn(OPEN_STEPS + LiveFiles(previous) + 1, OPEN_STEPS + LiveFiles(previous) + 3)
    }

    /** The restore stops while the converted key bundle is being replaced. */
    predicate SplitsBundle(cut: Cut) {
      cut.Reaches(PrepareSteps()) && SplitsStaging(cut.After(PrepareSteps()))
    }

    predicate SplitsStaging(cut: Cut) {
      cut.Reaches(2 * |source|) && SplitsReplacement(converted, cut.After(2 * |source|))
    }

    /** The restore stops where it leaves an entry in the staging directory that no list names. */
    predicate Splits(cut: Cut) { SplitsQuiesce(cut) || SplitsBundle(cut) }
  }

  /** Primitives of the first journal and the two directories. */
  const OPEN_STEPS: nat := PERSIST_STEPS + 2

  /** The staging journal, made durable before anything else, and the two directories of the transaction. */
  method OpenTransaction(p: RestoreProcess, request: Request, ghost plan: Plan) returns (s: Status)
    requires Finished(plan, Old, p.disk) && p.written == {} && request.For(plan)
    modifies p, p.fuse
    ensures p.Safe(plan, Old) && p.written <= {StagingPhase, PublishingPhase} && Strays(p.disk.files) == {}
    ensures p.disk.journal.None? ==> !p.disk.stagingDirectory && p.disk.files == old(p.disk.files)
    ensures s.Ok? ==> InStaging(p, plan) && StagedExactly(p.disk.files, []) && p.journal.stagedHashes == request.source
    ensures p.fuse.Ran(s, OPEN_STEPS)
    ensures p.disk.journalKey.EmptyKey? <==> old(p.fuse.Left()).StopsIn(1, 2)
  {
    ghost var cut := p.fuse.Left();
    p.journal := Journal(StagingPhase, false, request.source, request.previous, []);
    s := p.PersistJournal();
    ghost var next := p.fuse.Left();
    if !s.Ok? {
      RunsShort(cut, next, s, PERSIST_STEPS, OPEN_STEPS);
      return;
    }
    s := MakeDirectories(p);
    RunsOn(cut, next, p.fuse.Left(), s, PERSIST_STEPS, 2);
  }

  method MakeDirectories(p: RestoreProcess) returns (s: Status)
    modifies p`disk, p.fuse
    ensures p.fuse.Ran(s, 2)
    ensures p.disk == old(p.disk).(stagingDirectory := p.disk.stagingDirectory,
                                   previousDirectory := p.disk.previousDirectory)
    ensures s.Ok? ==> p.disk.stagingDirectory && p.disk.previousDirectory
    ensures old(p.disk.stagingDirectory) ==> p.disk.stagingDirectory
  {
    s := p.fuse.Primitive();
    if !s.Ok? { return; }
    p.disk := p.disk.(stagingDirectory := true);
    s := p.fuse.Primitive();
    if !s.Ok? { return; }
    p.disk := p.disk.(previousDirectory := true);
  }

  /** Classification of the live vault, and the staging journal with its result. */
  method Classify(p: RestoreProcess, request: Request, ghost plan: Plan) returns (s: Status)
    requires request.For(plan) && InStaging(p, plan) && StagedExactly(p.disk.files, [])
    requires p.journal.stagedHashes == request.source
    modifies p, p.fuse
    ensures p.Safe(plan, Old) && p.disk.journal.Some? && p.written <= {StagingPhase, PublishingPhase}
    ensures s.Ok? ==> InStaging(p, plan) && StagedExactly(p.disk.files, []) && p.journal.healthy == plan.healthy
    ensures p.fuse.Ran(s, request.ClassifySteps())
    ensures Strays(p.disk.files) != {} <==>
              request.classify && request.quiesced.Some? &&
              old(p.fuse.Left()).StopsIn(LiveFiles(request.previous) + 1, LiveFiles(request.previous) + 3)
  {
    ghost var cut, steps := p.fuse.Left(), 0;
    StagedHasNoStrays(p.disk.files, []);
    if request.classify {
      steps := LiveClassifySteps(request.previous, request.quiesced);
      s := ClassifyLive(p, request.previous, request.quiesced, plan);
      if !s.Ok? {
        RunsShort(cut, p.fuse.Left(), s, steps, request.ClassifySteps());
        return;
      }
      StagedHasNoStrays(p.disk.files, []);
    }
    ghost var next := p.fuse.Left();
    p.journal := p.journal.(healthy := request.healthy, previousHashes := request.previous);
    s := p.PersistJournal();
    RunsOn(cut, next, p.fuse.Left(), s, steps, WRITE_STEPS);
  }

  lemma StagedHasNoStrays(files: Files, entries: seq<Entry>)
    requires StagedExactly(files, entries)
    ensures Strays(files) == {}
  {
    forall leaf | Stray(leaf) ensures Staging(leaf) !in files {
      assert Content(files, Staging(leaf)) == None;
    }
  }

  /** Staging, conversion, publication and commit, in that order. */
  method StageAndCommit(p: RestoreProcess, request: Request, ghost plan: Plan)
    returns (s: Status, ghost outcome: Outcome)
    requires request.For(plan) && InStaging(p, plan) && StagedExactly(p.disk.files, [])
    requires p.journal.healthy == plan.healthy
    modifies p, p.fuse
    ensures p.Safe(plan, outcome) && p.disk.journal.Some?
    ensures p.written <= {StagingPhase, PublishingPhase, CommittedPhase}
    ensures s.Ok? ==> outcome.New? && !Blocked(p.disk)
    ensures outcome.New? ==> p.disk.journal == Some(p.journal) && p.journal.phase.CommittedPhase?
    ensures p.fuse.Spent(s, StagingSteps(plan, request))
    ensures Strays(p.disk.files) != {} <==> request.SplitsStaging(old(p.fuse.Left()))
  {
    outcome := Old;
    s := StageFiles(p, request.source, plan);
    if !s.Ok? { return; }
    s := ConvertPortable(p, request.source, request.converted, plan);
    if !s.Ok? { return; }
    var hashes := HashStaged(p, request.source, plan);
    s := Publish(p, hashes, plan);
    if !s.Ok? { return; }
    s, outcome := Commit(p, plan);
  }

  function StagingSteps(plan: Plan, request: Request): nat {
    2 * |request.source| + ConversionSteps(|request.converted|) + 2 * PERSIST_STEPS
    + ReconcileSteps(|plan.Operations()|)
  }

  /** Primitives that suffice for one undisturbed restore. */
  function RestoreSteps(plan: Plan, request: Request): nat {
    request.PrepareSteps() + StagingSteps(plan, request) + CleanupSteps(plan)
  }

  /** Only replacing a key bundle and taking a copy out of WAL mode ever leave such an entry, and each of them does
      under some cut. */
  lemma SplitsPossibleIff(request: Request)
    requires Distinct(request.converted)
    ensures (exists cut :: request.Splits(cut)) <==>
              HashOf(request.converted, ".keyclasp.key").Some? || (request.classify && request.quiesced.Some?)
  {
    PositionIs(request.converted, KEY_BUNDLE);
    if HashOf(request.converted, KEY_BUNDLE).Some? {
      var steps := request.PrepareSteps() + 2 * |request.source| + |request.converted| + 6;
      assert request.Splits(Cut(steps + Position(request.converted, KEY_BUNDLE) + 1, Quiet));
    }
    if request.classify && request.quiesced.Some? {
      assert request.Splits(Cut(OPEN_STEPS + LiveFiles(request.previous) + 1, Quiet));
    }
  }

  /** The transaction is open and the live vault classified. */
  method OpenAndClassify(p: RestoreProcess, request: Request, ghost plan: Plan) returns (s: Status)
    requires Finished(plan, Old, p.disk) && p.written == {} && request.For(plan)
    modifies p, p.fuse
    ensures p.Safe(plan, Old) && p.written <= {StagingPhase, PublishingPhase}
    ensures p.disk.journal.None? ==> !p.disk.stagingDirectory && p.disk.files == old(p.disk.files)
    ensures s.Ok? ==> InStaging(p, plan) && StagedExactly(p.disk.files, []) && p.journal.healthy == plan.healthy
    ensures p.fuse.Ran(s, request.PrepareSteps())
    ensures p.disk.journalKey.EmptyKey? <==> old(p.fuse.Left()).StopsIn(1, 2)
    ensures Strays(p.disk.files) != {} <==> request.SplitsQuiesce(old(p.fuse.Left()))
  {
    ghost var cut, steps := p.fuse.Left(), LiveFiles(request.previous);
    s := OpenTransaction(p, request, plan);
    ghost var next := p.fuse.Left();
    if !s.Ok? {
      RunsShort(cut, next, s, OPEN_STEPS, request.PrepareSteps());
      return;
    }
    StopsLater(cut, OPEN_STEPS, steps + 1, steps + 3);
    s := Classify(p, request, plan);
    RunsOn(cut, next, p.fuse.Left(), s, OPEN_STEPS, request.ClassifySteps());
  }

  /** The guarded part of a restore, up to the durable commit. */
  method StageAndPublish(p: RestoreProcess, request: Request, ghost plan: Plan)
    returns (s: Status, ghost outcome: Outcome)
    requires Finished(plan, Old, p.disk) && p.written == {} && request.For(plan)
    modifies p, p.fuse
    ensures p.Safe(plan, outcome) && p.written <= {StagingPhase, PublishingPhase, CommittedPhase}
    ensures s.Ok? ==> outcome.New? && !Blocked(p.disk)
    ensures outcome.New? ==> p.disk.journal == Some(p.journal) && p.journal.phase.CommittedPhase?
    ensures p.disk.journal.None? ==> !p.disk.stagingDirectory && p.disk.files == old(p.disk.files)
    ensures p.fuse.Spent(s, request.PrepareSteps() + StagingSteps(plan, request))
    ensures p.disk.journalKey.EmptyKey? <==> old(p.fuse.Left()).StopsIn(1, 2)
    ensures Strays(p.disk.files) != {} <==> request.Splits(old(p.fuse.Left()))
  {
    s := OpenAndClassify(p, request, plan);
    if !s.Ok? { return s, Old; }
    s, outcome := StageAndCommit(p, request, plan);
  }

  /** Without a durable journal nothing was staged: the directories are made after it. */
  method ForgetRestore(p: RestoreProcess, ghost plan: Plan) returns (s: Status)
    requires p.Safe(plan, Old) && p.disk.journal.None?
    modifies p`disk, p`mutations, p.fuse
    ensures p.Safe(plan, Old) && Settled(plan, Old, p.disk) && (s.Ok? ==> p.disk.journalKey.NoKey?)
    ensures p.fuse.Spent(s, 4) && Strays(p.disk.files) == Strays(old(p.disk.files))
  {
    s := p.RemoveDirectoryIfEmpty(true);
    if !s.Ok? { return; }
    s := p.RemoveDirectoryIfEmpty(false);
    if !s.Ok? { return; }
    if !p.disk.journalKey.NoKey? {
      s := p.fuse.Primitive();
      if !s.Ok? { return; }
      p.disk := p.disk.(journalKey := NoKey);
    }
    s := p.fuse.Primitive();
  }

  /** The in-process answer to an exception: roll back by the durable journal, or drop what precedes one. */
  method AbandonRestore(p: RestoreProcess, ghost plan: Plan, ghost outcome: Outcome)
    returns (s: Status, ghost result: Outcome)
    requires p.Safe(plan, outcome) && p.written <= {StagingPhase, PublishingPhase, CommittedPhase}
    requires p.disk.journal.None? ==> outcome.Old?
    modifies p, p.fuse
    ensures p.Safe(plan, result)
    ensures s.Ok? ==> Settled(plan, Old, p.disk) && result.Old? && p.disk.journalKey.NoKey?
    ensures p.fuse.Used(s, RecoverySteps(plan))
    ensures s.Threw? ==> p.fuse.faults.Count() < old(p.fuse.faults).Count() || Strays(p.disk.files) != {}
    ensures Strays(p.disk.files) == Strays(old(p.disk.files))
  {
    result := outcome;
    if p.disk.journal.Some? {
      p.journal := p.disk.journal.value;
      if !HasExactJournalOperations(p.journal) || !p.disk.journalKey.WholeKey? { return Threw, outcome; }
      s, result := p.RollbackJournal(plan, outcome);
      return;
    }
    result := Old;
    s := ForgetRestore(p, plan);
  }

  /** One managed restore. A failed cleanup after the commit is a warning, not a failure. Undisturbed, it commits and
      leaves nothing behind. After a single exception, its handler has put everything back, unless the staging
      directory holds an entry that no list names. */
  method RestoreManagedBackup(p: RestoreProcess, request: Request, ghost plan: Plan)
    returns (s: Status, warned: bool, ghost outcome: Outcome)
    requires Finished(plan, Old, p.disk) && p.written == {} && request.For(plan)
    modifies p, p.fuse
    ensures p.Safe(plan, outcome)
    ensures s.Ok? ==> outcome.New? && (!warned ==> Finished(plan, New, p.disk))
    ensures s.Threw? && outcome.Old? && p.disk.journal.None? ==> Settled(plan, Old, p.disk)
    ensures old(p.fuse.faults).Quiet? ==>
              !s.Threw? && p.fuse.faults.Quiet? && (outcome.New? <==> CommittedPhase in p.written)
    ensures old(p.fuse.faults).Quiet? && old(p.fuse.fuel) > RestoreSteps(plan, request) ==>
              s.Ok? && !warned && Finished(plan, New, p.disk)
    ensures p.fuse.Used(s, RestoreSteps(plan, request) + RecoverySteps(plan))
    ensures old(p.fuse.faults).Count() == 1 && s.Threw? ==>
              Strays(p.disk.files) != {} || (Settled(plan, Old, p.disk) && p.disk.journalKey.NoKey?)
    ensures Strays(p.disk.files) != {} <==> request.Splits(old(p.fuse.Left()))
    ensures old(p.fuse.faults).Quiet? ==> (p.disk.journalKey.EmptyKey? <==> old(p.fuse.fuel) == 1)
  {
    warned := false;
    s, outcome := StageAndPublish(p, request, plan);
    if s.Died? { return; }
    if s.Threw? {
      s, outcome := AbandonRestore(p, plan, outcome);
      if s.Ok? { s := Threw; }
      return;
    }
    s := p.FinishCommittedJournal(plan);
    if s.Threw? { s, warned := Ok, true; }
  }

  // ---- recovery, again and again ----------------------------------------------------------------------------------

  /** A blocked disk has its live files in place. */
  lemma BlockedKeepsLive(plan: Plan, outcome: Outcome, disk: Disk)
    requires HeadsFor(plan, outcome, disk) && Blocked(disk)
    ensures LiveIs(plan, outcome, disk.files) && !Finished(plan, outcome, disk)
  {
    if disk.journal.Some? && disk.journal.value.phase in {PublishingPhase, RollbackPhase} {
      var i :| plan.At(i, disk.files);
      PrefixHasNoStrays(plan, i, disk.files);
    }
    if disk.journal.Some? && disk.journal.value.phase.CommittedPhase? {
      PrefixHasNoStrays(plan, Target(plan, New), disk.files);
    }
  }

  /** A cut of a restore while it replaces the converted key bundle blocks recovery, wherever staging stood. */
  lemma InterruptedConversionBlocks(plan: Plan, disk: Disk, hash: Hash)
    requires HeadsFor(plan, Old, disk) && disk.journal.Some? && disk.journal.value.phase.StagingPhase?
    requires disk.stagingDirectory
    ensures var cut := disk.(files := disk.files[Staging(BundleTemporary) := hash]);
            HeadsFor(plan, Old, cut) && Blocked(cut)
  {
    var cut := disk.(files := disk.files[Staging(BundleTemporary) := hash]);
    assert BundleTemporary in Strays(cut.files);
    forall path: Path | path.Live? || path.Unrelated? ensures Content(cut.files, path) == Content(disk.files, path) {
    }
  }

  /** One recovery of a blocked disk. */
  method RetryOnce(p: RestoreProcess, cut: Cut, ghost plan: Plan, ghost outcome: Outcome) returns (s: Status)
    requires p.Safe(plan, outcome) && Blocked(p.disk)
    modifies p, p.fuse
    ensures p.Safe(plan, outcome) && Blocked(p.disk) && !s.Ok?
    ensures cut.faults.Quiet? && cut.fuel > RecoverySteps(plan) ==> s.Threw?
  {
    p.fuse.Reset(cut);
    s := p.RecoverInterruptedManagedRestore(plan, outcome);
    BlockedKeepsLive(plan, outcome, p.disk);
  }

  /** Every recovery of a blocked disk fails, however many are tried: with enough fuel and no other exception each
      ends with one. The live files stay as they were. */
  method RetryBlocked(p: RestoreProcess, cuts: seq<Cut>, ghost plan: Plan, ghost outcome: Outcome)
    returns (results: seq<Status>)
    requires p.Safe(plan, outcome) && Blocked(p.disk)
    modifies p, p.fuse
    ensures p.Safe(plan, outcome) && LiveIs(plan, outcome, p.disk.files)
    ensures Blocked(p.disk) && !Finished(plan, outcome, p.disk)
    ensures |results| == |cuts| && Ok !in results
    ensures forall k :: 0 <= k < |cuts| && cuts[k].faults.Quiet? && cuts[k].fuel > RecoverySteps(plan) ==>
              results[k].Threw?
  {
    results := [];
    for n := 0 to |cuts|
      invariant p.Safe(plan, outcome) && Blocked(p.disk) && |results| == n && Ok !in results
      invariant forall k :: 0 <= k < n && cuts[k].faults.Quiet? && cuts[k].fuel > RecoverySteps(plan) ==>
                  results[k].Threw?
    {
      var s := RetryOnce(p, cuts[n], plan, outcome);
      results := results + [s];
    }
    BlockedKeepsLive(plan, outcome, p.disk);
  }

  /** Recoveries cut anywhere, then one with enough fuel: finished if and only if nothing blocks it, with the live files
      at the outcome in either case. All of them together mutate no more than `WorkBound`, however many there were. */
  method RecoverAcrossCuts(p: RestoreProcess, cuts: seq<Cut>, fuel: nat, ghost plan: Plan, ghost outcome: Outcome)
    returns (s: Status)
    requires p.Safe(plan, outcome) && fuel > RecoverySteps(plan)
    modifies p, p.fuse
    ensures Finished(plan, outcome, p.disk) <==> !old(Blocked(p.disk))
    ensures s == if old(Blocked(p.disk)) then Threw else Ok
    ensures p.Safe(plan, outcome) && LiveIs(plan, outcome, p.disk.files)
    ensures p.mutations <= old(p.mutations) + WorkBound(plan)
    ensures p.Recorded() && p.SameBlocks()
  {
    WorkIsBounded(plan, outcome, p.disk);
    for n := 0 to |cuts|
      invariant p.Safe(plan, outcome) && p.SameBlocks() && p.Recorded()
      invariant Work(plan, p.disk) + p.mutations <= old(p.mutations) + WorkBound(plan)
    {
      p.fuse.Reset(cuts[n]);
      s := p.RecoverInterruptedManagedRestore(plan, outcome);
    }
    p.fuse.Reset(Cut(fuel, Quiet));
    s := p.RecoverInterruptedManagedRestore(plan, outcome);
    if Blocked(p.disk) { BlockedKeepsLive(plan, outcome, p.disk); }
  }

  // ---- what is left, name by name ---------------------------------------------------------------------------------

  lemma {:induction false} ConvertedHash(source: seq<Entry>, converted: seq<Entry>, name: Name)
    ensures HashOf(Converted(source, converted), name) ==
              if HashOf(source, name).Some? && HashOf(converted, name).Some? then HashOf(converted, name)
              else HashOf(source, name)
  {
    if source == [] {
    } else {
      assert Converted(source, converted)[1..] == Converted(source[1..], converted);
      ConvertedHash(source[1..], converted, name);
    }
  }

  /** The old live files, or the backup's with the converted ones in their place. */
  lemma LiveFilesAre(plan: Plan, request: Request, outcome: Outcome, files: Files, name: Name)
    requires request.For(plan) && LiveIs(plan, outcome, files)
    ensures Content(files, Live(name)) ==
              if outcome == Old then HashOf(request.previous, name)
              else if HashOf(request.converted, name) != None then HashOf(request.converted, name)
              else HashOf(request.source, name)
    ensures Content(files, Unrelated(name)) == if name in plan.unrelated then Some(plan.unrelated[name]) else None
  {
    assert plan.previous[0..] == plan.previous && plan.previous[|plan.previous|..] == [];
    assert plan.staged[..|plan.staged|] == plan.staged;
    ConvertedHash(request.source, request.converted, name);
    HashOfNone(request.converted, name);
    assert Content(files, Live(name)) == plan.ContentAt(Target(plan, outcome), Live(name));
    assert Content(files, Unrelated(name)) == plan.ContentAt(Target(plan, outcome), Unrelated(name));
  }

  /** The files that were live before outlast a finished restore only where it committed over a damaged vault. */
  ghost predicate NothingElseLeft(request: Request, outcome: Outcome, disk: Disk) {
    var evidence := outcome == New && !request.healthy;
    && disk.journal == None && !disk.journalTemporary && disk.journalKey == NoKey && !disk.stagingDirectory
    && (forall leaf :: Staging(leaf) !in disk.files) && disk.previousDirectory == evidence
    && (forall name :: Content(disk.files, Previous(name)) == if evidence then HashOf(request.previous, name) else None)
  }

  lemma FinishedLeaves(plan: Plan, request: Request, outcome: Outcome, disk: Disk)
    requires request.For(plan) && LiveIs(plan, outcome, disk.files)
    ensures Finished(plan, outcome, disk) <==> NothingElseLeft(request, outcome, disk)
  {
  }

  lemma BlockedBy(disk: Disk)
    ensures Blocked(disk) <==>
              || Staging(BundleTemporary) in disk.files || Staging(ClassificationJournal) in disk.files
              || disk.journalKey == EmptyKey
  {
    assert Staging(BundleTemporary) in disk.files ==> BundleTemporary in Strays(disk.files);
    assert Staging(ClassificationJournal) in disk.files ==> ClassificationJournal in Strays(disk.files);
  }

  /** One restore that may die or throw anywhere, then recoveries that may each die or throw anywhere, then one with
      enough fuel. The live files are exactly one of the two inventories, decided by the journals that became durable.
      Nothing of the transaction is left if and only if no unlisted entry is in the staging directory and the key is
      not an empty file; a restore that converts no key bundle and quiesces no copy never makes such an entry. */
  method RestoreAcrossCrashes(p: RestoreProcess, request: Request, cuts: seq<Cut>, fuel: nat, ghost plan: Plan)
    returns (ghost outcome: Outcome)
    requires Finished(plan, Old, p.disk) && p.written == {} && request.For(plan) && fuel > RecoverySteps(plan)
    modifies p, p.fuse
    ensures LiveIs(plan, outcome, p.disk.files)
    ensures forall name :: Content(p.disk.files, Live(name)) ==
              if outcome == Old then HashOf(request.previous, name)
              else if HashOf(request.converted, name) != None then HashOf(request.converted, name)
              else HashOf(request.source, name)
    ensures forall name :: Content(p.disk.files, Unrelated(name)) ==
              if name in plan.unrelated then Some(plan.unrelated[name]) else None
    ensures Finished(plan, outcome, p.disk) <==> !Blocked(p.disk)
    ensures NothingElseLeft(request, outcome, p.disk) <==>
              && Staging(BundleTemporary) !in p.disk.files && Staging(ClassificationJournal) !in p.disk.files
              && p.disk.journalKey != EmptyKey
    ensures Strays(p.disk.files) != {} <==> request.Splits(old(p.fuse.Left()))
    ensures old(p.fuse.faults).Quiet? ==>
              (Finished(plan, outcome, p.disk) <==> old(p.fuse.fuel) != 1 && !request.Splits(old(p.fuse.Left())))
    ensures outcome.New? <==> CommittedPhase in p.written && RollbackPhase !in p.written
    ensures old(p.fuse.faults).Quiet? ==> (outcome.New? <==> CommittedPhase in p.written)
    ensures old(p.fuse.faults).Quiet? && old(p.fuse.fuel) > RestoreSteps(plan, request) ==>
              outcome.New? && Finished(plan, New, p.disk)
  {
    var s, warned;
    s, warned, outcome := RestoreManagedBackup(p, request, plan);
    s := RecoverAcrossCuts(p, cuts, fuel, plan, outcome);
    forall name { LiveFilesAre(plan, request, outcome, p.disk.files, name); }
    FinishedLeaves(plan, request, outcome, p.disk);
    BlockedBy(p.disk);
  }
}

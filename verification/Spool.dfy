/** The spool of interop-file/src/spool.rs over an abstract directory: temporary files are
    appended to in order, and published by renaming. Paths are component lists relative to
    the root; symbolic links, permissions and outside interference are not modelled. */
module Spool {
  import opened Prelude
  import opened SpoolNames

  type Path = seq<string>
  type FinalPath = p: Path | |p| >= 1 witness [""]

  /** `hashed` is what the running hash has absorbed. */
  datatype SpoolEntry = SpoolEntry(
    handle: nat, entryId: string, budget: nat, hashed: Bytes, written: nat, terminated: bool)
  {
    function TempFile(): Path {
      [TempName(handle, entryId)]
    }
  }

  datatype PublishReceipt = PublishReceipt(relative: Path, size: nat, hashOf: Bytes)

  datatype SpoolState = SpoolState(
    root: string,
    entries: seq<SpoolEntry>,
    published: seq<PublishReceipt>,
    nextHandle: nat,
    files: map<Path, Bytes>,
    dirs: set<Path>)

  // ---------------------------------------------------------------- lookup by substring

  predicate Matches(root: string, e: SpoolEntry, handle: nat) {
    Contains(TempPath(root, e.handle, e.entryId), Needle(handle))
  }

  /** The first entry whose path contains the text; |entries| when there is none. */
  function Find(root: string, entries: seq<SpoolEntry>, handle: nat): (i: nat)
    ensures i <= |entries|
    ensures i < |entries| ==> Matches(root, entries[i], handle)
    ensures forall j :: 0 <= j < i ==> !Matches(root, entries[j], handle)
    decreases |entries|
  {
    if entries == [] then 0
    else if Matches(root, entries[0], handle) then 0
    else 1 + Find(root, entries[1..], handle)
  }

  /** Handles are given out in increasing order; entry ids hold no dot. */
  ghost predicate Numbered(entries: seq<SpoolEntry>, nextHandle: nat) {
    && (forall i :: 0 <= i < |entries| ==> entries[i].handle < nextHandle && Dotless(entries[i].entryId))
    && (forall i, j :: 0 <= i < j < |entries| ==> entries[i].handle < entries[j].handle)
  }

  /** The root does not itself contain a text the lookup may search for. */
  ghost predicate CleanRoot(root: string) {
    forall h: nat :: !Contains(RootPrefix(root), Needle(h))
  }

  ghost predicate LookupExact(root: string, entries: seq<SpoolEntry>) {
    forall i :: 0 <= i < |entries| ==> Find(root, entries, entries[i].handle) == i
  }

  /** The lookup finds every entry by its own handle exactly when the root holds none of the
      texts of the later entries: the first entry is always found, whatever the root. */
  lemma LookupExactIff(root: string, entries: seq<SpoolEntry>, nextHandle: nat)
    requires Numbered(entries, nextHandle)
    ensures LookupExact(root, entries) <==>
            forall i :: 1 <= i < |entries| ==> !Contains(RootPrefix(root), Needle(entries[i].handle))
  {
    forall i, j | 0 <= i < |entries| && 0 <= j < |entries|
      ensures Matches(root, entries[j], entries[i].handle) <==>
              Contains(RootPrefix(root), Needle(entries[i].handle)) || i == j
    {
      NeedleInPath(root, entries[j].handle, entries[j].entryId, entries[i].handle);
    }
    if LookupExact(root, entries) {
      forall i | 1 <= i < |entries| ensures !Contains(RootPrefix(root), Needle(entries[i].handle)) {
        assert Find(root, entries, entries[i].handle) == i;
        assert !Matches(root, entries[0], entries[i].handle);
      }
    }
  }

  lemma FindInCleanRoot(root: string, entries: seq<SpoolEntry>, nextHandle: nat, handle: nat)
    requires CleanRoot(root) && Numbered(entries, nextHandle)
    ensures var i := Find(root, entries, handle);
            if i < |entries| then entries[i].handle == handle
            else forall j :: 0 <= j < |entries| ==> entries[j].handle != handle
  {
    forall j | 0 <= j < |entries|
      ensures Matches(root, entries[j], handle) <==> entries[j].handle == handle
    {
      NeedleInPath(root, entries[j].handle, entries[j].entryId, handle);
    }
  }

  /** What is found depends on the handles and the ids of the entries alone. */
  lemma {:induction false} SameLookup(root: string, a: seq<SpoolEntry>, b: seq<SpoolEntry>, handle: nat)
    requires |a| == |b|
    requires forall i :: 0 <= i < |a| ==> a[i].handle == b[i].handle && a[i].entryId == b[i].entryId
    ensures Find(root, a, handle) == Find(root, b, handle)
    decreases |a|
  {
    if a == [] {
    } else if !Matches(root, a[0], handle) {
      SameLookup(root, a[1..], b[1..], handle);
    }
  }

  // ---------------------------------------------------------------- operations

  /** The handle counter moves even when the temporary file cannot be created. */
  function Begin(s: SpoolState, entryId: string, parent: Option<seq<string>>, name: string, declared: nat,
      budget: nat): (SpoolState, Result<nat>)
  {
    if !Sanitary(parent, name) then (s, Err(InvalidFrame))
    else
      var h, t := s.nextHandle, s.(nextHandle := s.nextHandle + 1);
      var e := SpoolEntry(h, entryId, Min(budget, declared), [], 0, false);
      if e.TempFile() in s.files || e.TempFile() in s.dirs then (t, Err(DestinationUnavailable))
      else (t.(entries := s.entries + [e], files := s.files[e.TempFile() := []]), Ok(h))
  }

  function Terminate(s: SpoolState, i: nat): SpoolState
    requires i < |s.entries|
  {
    s.(entries := s.entries[i := s.entries[i].(terminated := true)],
       files := s.files - {s.entries[i].TempFile()})
  }

  function Write(s: SpoolState, handle: nat, offset: nat, bytes: Bytes): (SpoolState, Result<()>) {
    var i := Find(s.root, s.entries, handle);
    if i == |s.entries| then (s, Err(InvalidFrame))
    else
      var e := s.entries[i];
      if e.terminated then (s, Err(ResourceLimit))
      else if offset != e.written then (s, Err(InvalidFrame))
      else if e.written + |bytes| > e.budget then (Terminate(s, i), Err(ResourceLimit))
      else if e.TempFile() !in s.files then (s, Err(DestinationUnavailable))
      else (s.(entries := s.entries[i := e.(hashed := e.hashed + bytes, written := e.written + |bytes|)],
               files := s.files[e.TempFile() := s.files[e.TempFile()] + bytes]), Ok(()))
  }

  /** Directories are created one by one, and creating one that exists is an error. */
  function MakeDirs(dirs: set<Path>, files: map<Path, Bytes>, final: Path, k: nat): (set<Path>, bool)
    requires 1 <= k <= |final|
    decreases |final| - k
  {
    if k == |final| then (dirs, true)
    else if final[..k] in dirs || final[..k] in files then (dirs, false)
    else MakeDirs(dirs + {final[..k]}, files, final, k + 1)
  }

  predicate FileInTheWay(files: map<Path, Bytes>, final: Path) {
    exists k :: 1 <= k < |final| && final[..k] in files
  }

  function Commit(s: SpoolState, handle: nat, final: FinalPath): (SpoolState, Result<PublishReceipt>) {
    var i := Find(s.root, s.entries, handle);
    if i == |s.entries| then (s, Err(InvalidFrame))
    else
      var e := s.entries[i];
      if e.terminated then (s, Err(ResourceLimit))
      else if FileInTheWay(s.files, final) then (s, Err(InvalidFrame))
      else
        var (dirs, made) := MakeDirs(s.dirs, s.files, final, 1);
        var t := s.(dirs := dirs);
        if !made then (t, Err(DestinationUnavailable))
        else if e.TempFile() !in s.files || final in dirs then (t, Err(DestinationUnavailable))
        else
          var receipt := PublishReceipt(final, e.written, e.hashed);
          (t.(files := (s.files - {e.TempFile()})[final := s.files[e.TempFile()]],
              entries := s.entries[i := e.(terminated := true)],
              published := s.published + [receipt]), Ok(receipt))
  }

  function Abort(s: SpoolState, handle: nat): (SpoolState, Result<()>) {
    var i := Find(s.root, s.entries, handle);
    if i == |s.entries| then (s, Err(InvalidFrame)) else (Terminate(s, i), Ok(()))
  }

  // ---------------------------------------------------------------- what holds of live entries

  /** A live entry's temporary file holds exactly what was written, which is what was hashed. */
  ghost predicate LiveFile(s: SpoolState, e: SpoolEntry) {
    && e.TempFile() in s.files && s.files[e.TempFile()] == e.hashed
    && e.written == |e.hashed| <= e.budget
  }

  ghost predicate Sound(s: SpoolState) {
    && CleanRoot(s.root) && Numbered(s.entries, s.nextHandle)
    && forall i :: 0 <= i < |s.entries| && !s.entries[i].terminated ==> LiveFile(s, s.entries[i])
  }

  lemma TempNamesDistinct(a: SpoolEntry, b: SpoolEntry)
    requires a.TempFile() == b.TempFile()
    ensures a.handle == b.handle
  {
    var s := TempName(a.handle, a.entryId);
    assert s == a.TempFile()[0] == b.TempFile()[0] == TempName(b.handle, b.entryId);
    assert Needle(a.handle) + a.entryId == s;
    assert s[..|Needle(a.handle)|] == Needle(a.handle);
    NeedleInOwnName(a.handle, b.handle, b.entryId);
  }

  lemma OtherTempFiles(s: SpoolState, i: nat)
    requires Sound(s) && i < |s.entries|
    ensures forall j :: 0 <= j < |s.entries| && j != i ==> s.entries[j].TempFile() != s.entries[i].TempFile()
  {
    forall j | 0 <= j < |s.entries| && j != i
      ensures s.entries[j].TempFile() != s.entries[i].TempFile()
    {
      if s.entries[j].TempFile() == s.entries[i].TempFile() {
        TempNamesDistinct(s.entries[j], s.entries[i]);
      }
    }
  }

  lemma BeginSound(s: SpoolState, entryId: string, parent: Option<seq<string>>, name: string, declared: nat,
      budget: nat)
    requires Sound(s) && Dotless(entryId)
    ensures Sound(Begin(s, entryId, parent, name, declared, budget).0)
  {
    hide CleanRoot, TempName, Sanitary;
  }

  lemma WriteSound(s: SpoolState, handle: nat, offset: nat, bytes: Bytes)
    requires Sound(s)
    ensures Sound(Write(s, handle, offset, bytes).0)
  {
    hide CleanRoot, TempName, Find;
    var i := Find(s.root, s.entries, handle);
    if i < |s.entries| {
      OtherTempFiles(s, i);
    }
  }

  lemma AbortSound(s: SpoolState, handle: nat)
    requires Sound(s)
    ensures Sound(Abort(s, handle).0)
  {
    hide CleanRoot, TempName, Find;
    var i := Find(s.root, s.entries, handle);
    if i < |s.entries| {
      OtherTempFiles(s, i);
    }
  }

  /** Whatever publishing does to the directory, to the entries it only ends one. */
  lemma CommitEntriesOnly(s: SpoolState, handle: nat, final: FinalPath)
    ensures var t, i := Commit(s, handle, final).0, Find(s.root, s.entries, handle);
            && t.root == s.root && t.nextHandle == s.nextHandle
            && (t.entries == s.entries ||
                (i < |s.entries| && t.entries == s.entries[i := s.entries[i].(terminated := true)]))
  {
  }

  /** The directories a spool created are closed under taking prefixes. */
  ghost predicate DirsClosed(dirs: set<Path>) {
    forall d :: d in dirs ==> |d| >= 1 && d[..1] in dirs
  }

  lemma {:induction false} MakeDirsOutcome(dirs: set<Path>, files: map<Path, Bytes>, final: Path, k: nat)
    requires 1 <= k <= |final| && !FileInTheWay(files, final)
    requires forall j :: k <= j < |final| ==> final[..j] !in dirs
    ensures MakeDirs(dirs, files, final, k).1
    ensures forall d :: d in MakeDirs(dirs, files, final, k).0 ==>
              d in dirs || (|d| < |final| && exists j :: k <= j < |final| && d == final[..j])
    decreases |final| - k
  {
    if k >= |final| {
    } else {
      assert forall j :: k < j < |final| ==> |final[..j]| != |final[..k]|;
      MakeDirsOutcome(dirs + {final[..k]}, files, final, k + 1);
    }
  }

  /** Nothing stands in the way of a final path: no directory of its top-level name, and no
      file where one of its folders would be. A file at the path itself is no obstacle. */
  predicate Publishable(s: SpoolState, final: FinalPath) {
    !FileInTheWay(s.files, final) && final[..1] !in s.dirs
  }

  /** Publishing a live entry succeeds exactly when nothing is in the way. The second file of
      a folder is therefore never published; a file at the final path itself is replaced. */
  lemma CommitSucceedsIff(s: SpoolState, handle: nat, final: FinalPath)
    requires Sound(s) && DirsClosed(s.dirs)
    requires Find(s.root, s.entries, handle) < |s.entries|
    requires !s.entries[Find(s.root, s.entries, handle)].terminated
    ensures Commit(s, handle, final).1.Ok? <==> Publishable(s, final)
  {
    var e := s.entries[Find(s.root, s.entries, handle)];
    if !FileInTheWay(s.files, final) {
      if |final| == 1 {
        assert final[..1] == final;
      } else if final[..1] !in s.dirs {
        assert forall j :: 1 <= j < |final| ==> final[..j][..1] == final[..1];
        MakeDirsOutcome(s.dirs, s.files, final, 1);
      }
      if final in s.dirs { assert final[..1] in s.dirs; }
    }
  }

  /** What is published is what was written, and the receipt says so. */
  lemma CommitPublishes(s: SpoolState, handle: nat, final: FinalPath)
    requires Sound(s) && Commit(s, handle, final).1.Ok?
    ensures var e := s.entries[Find(s.root, s.entries, handle)];
            var (t, r) := Commit(s, handle, final);
            && e.handle == handle
            && r.value == PublishReceipt(final, |e.hashed|, e.hashed)
            && final in t.files && t.files[final] == e.hashed
            && (e.TempFile() == final || e.TempFile() !in t.files)
  {
    FindInCleanRoot(s.root, s.entries, s.nextHandle, handle);
  }

  /** The entry that a lookup finds is there and not ended. */
  predicate IsLive(s: SpoolState, handle: nat) {
    var i := Find(s.root, s.entries, handle);
    i < |s.entries| && !s.entries[i].terminated
  }

  /** Every other live entry that keeps its temporary file at the final path holds the very
      bytes that are being published there. */
  ghost predicate SameBytesAt(s: SpoolState, handle: nat, final: FinalPath)
    requires IsLive(s, handle)
  {
    var i := Find(s.root, s.entries, handle);
    forall j :: 0 <= j < |s.entries| && j != i && !s.entries[j].terminated && s.entries[j].TempFile() == final ==>
      s.entries[j].hashed == s.entries[i].hashed
  }

  /** Publishing keeps every live temporary file what was written to it exactly when it fails,
      or the temporary files it replaces hold the same bytes. */
  lemma CommitSoundIff(s: SpoolState, handle: nat, final: FinalPath)
    requires Sound(s) && DirsClosed(s.dirs) && IsLive(s, handle)
    ensures Sound(Commit(s, handle, final).0) <==> (Publishable(s, final) ==> SameBytesAt(s, handle, final))
  {
    CommitSucceedsIff(s, handle, final);
    if Publishable(s, final) {
      CommittedSoundIff(s, handle, final);
    } else {
      CommitFailedSound(s, handle, final);
    }
  }

  lemma CommitFailedSound(s: SpoolState, handle: nat, final: FinalPath)
    requires Sound(s) && Commit(s, handle, final).1.Err?
    ensures Sound(Commit(s, handle, final).0)
  {
    hide MakeDirs, FileInTheWay, Find, CleanRoot;
  }

  /** What a successful commit makes of the state. */
  function Committed(s: SpoolState, i: nat, final: FinalPath, dirs: set<Path>): SpoolState
    requires i < |s.entries| && s.entries[i].TempFile() in s.files
  {
    var e := s.entries[i];
    s.(dirs := dirs, files := (s.files - {e.TempFile()})[final := s.files[e.TempFile()]],
       entries := s.entries[i := e.(terminated := true)],
       published := s.published + [PublishReceipt(final, e.written, e.hashed)])
  }

  lemma CommitIs(s: SpoolState, handle: nat, final: FinalPath)
    requires Commit(s, handle, final).1.Ok?
    ensures IsLive(s, handle)
    ensures var i := Find(s.root, s.entries, handle);
            && s.entries[i].TempFile() in s.files
            && Commit(s, handle, final).0 == Committed(s, i, final, Commit(s, handle, final).0.dirs)
  {
    hide MakeDirs, FileInTheWay, Find;
  }

  lemma CommittedSoundIff(s: SpoolState, handle: nat, final: FinalPath)
    requires Sound(s) && Commit(s, handle, final).1.Ok? && IsLive(s, handle)
    ensures Sound(Commit(s, handle, final).0) <==> SameBytesAt(s, handle, final)
  {
    CommitIs(s, handle, final);
    hide Commit, CleanRoot;
    var i, t := Find(s.root, s.entries, handle), Commit(s, handle, final).0;
    OtherTempFiles(s, i);
    forall j | 0 <= j < |s.entries| && j != i && !s.entries[j].terminated
      ensures t.entries[j] == s.entries[j]
      ensures LiveFile(t, t.entries[j]) <==>
              (s.entries[j].TempFile() == final ==> s.entries[j].hashed == s.entries[i].hashed)
    {
      assert LiveFile(s, s.entries[j]) && LiveFile(s, s.entries[i]);
    }
  }

  /** The final path is not where another live entry keeps its temporary file. */
  ghost predicate NoClash(s: SpoolState, handle: nat, final: Path) {
    forall i :: 0 <= i < |s.entries| && !s.entries[i].terminated && s.entries[i].handle != handle ==>
      s.entries[i].TempFile() != final
  }

  /** The plain case of it: nothing is replaced. */
  lemma CommitSound(s: SpoolState, handle: nat, final: FinalPath)
    requires Sound(s) && NoClash(s, handle, final)
    ensures Sound(Commit(s, handle, final).0)
  {
    hide Commit;
    if Commit(s, handle, final).1.Err? {
      CommitFailedSound(s, handle, final);
    } else {
      CommitIs(s, handle, final);
      FindInCleanRoot(s.root, s.entries, s.nextHandle, handle);
      CommittedSoundIff(s, handle, final);
    }
  }

  // ---------------------------------------------------------------- folders over whole runs

  datatype SpoolOp =
    | DoBegin(entryId: string, parent: Option<seq<string>>, name: string, declared: nat, budget: nat)
    | DoWrite(handle: nat, offset: nat, bytes: Bytes)
    | DoCommit(handle: nat, final: FinalPath)
    | DoAbort(handle: nat)

  function Step(s: SpoolState, op: SpoolOp): SpoolState {
    match op
    case DoBegin(entryId, parent, name, declared, budget) => Begin(s, entryId, parent, name, declared, budget).0
    case DoWrite(handle, offset, bytes) => Write(s, handle, offset, bytes).0
    case DoCommit(handle, final) => Commit(s, handle, final).0
    case DoAbort(handle) => Abort(s, handle).0
  }

  function Play(s: SpoolState, ops: seq<SpoolOp>): SpoolState {
    if ops == [] then s else Step(Play(s, ops[..|ops| - 1]), ops[|ops| - 1])
  }

  lemma {:induction false} MakeDirsGrows(dirs: set<Path>, files: map<Path, Bytes>, final: Path, k: nat)
    requires 1 <= k <= |final|
    ensures dirs <= MakeDirs(dirs, files, final, k).0
    ensures DirsClosed(dirs) && (k == 1 || final[..1] in dirs) ==> DirsClosed(MakeDirs(dirs, files, final, k).0)
    ensures MakeDirs(dirs, files, final, k).1 && k == 1 < |final| ==> final[..1] in MakeDirs(dirs, files, final, k).0
    decreases |final| - k
  {
    if k < |final| && !(final[..k] in dirs || final[..k] in files) {
      MakeDirsGrows(dirs + {final[..k]}, files, final, k + 1);
      assert final[..k][..1] == final[..1];
    }
  }

  /** Directories are never removed, and the ones there are stay closed under prefixes. */
  lemma StepKeepsDirs(s: SpoolState, op: SpoolOp)
    ensures s.dirs <= Step(s, op).dirs
    ensures DirsClosed(s.dirs) ==> DirsClosed(Step(s, op).dirs)
  {
    if op.DoCommit? {
      MakeDirsGrows(s.dirs, s.files, op.final, 1);
    }
  }

  lemma {:induction false} PlayKeepsDirs(s: SpoolState, ops: seq<SpoolOp>)
    ensures s.dirs <= Play(s, ops).dirs
    ensures DirsClosed(s.dirs) ==> DirsClosed(Play(s, ops).dirs)
    decreases |ops|
  {
    if ops == [] {
    } else {
      hide Step, DirsClosed;
      PlayKeepsDirs(s, ops[..|ops| - 1]);
      StepKeepsDirs(Play(s, ops[..|ops| - 1]), ops[|ops| - 1]);
    }
  }

  /** Once a file has been published below a top-level folder, no entry is ever published in
      or below that folder again, however the spool is used in between. */
  lemma FolderPublishesOnce(s: SpoolState, handle: nat, final: FinalPath, ops: seq<SpoolOp>, handle': nat,
      final': FinalPath)
    requires Commit(s, handle, final).1.Ok? && |final| >= 2 && final'[..1] == final[..1]
    ensures Commit(Play(Commit(s, handle, final).0, ops), handle', final').1.Err?
  {
    hide Play, DirsClosed, Find;
    var t := Commit(s, handle, final).0;
    MakeDirsGrows(s.dirs, s.files, final, 1);
    PlayKeepsDirs(t, ops);
    if |final'| == 1 {
      assert final' == final'[..1];
    }
  }

  // ---------------------------------------------------------------- receipts over whole runs

  /** Every receipt is still true: the file is there, with the bytes and the size it names. */
  ghost predicate ReceiptsTrue(s: SpoolState) {
    forall k :: 0 <= k < |s.published| ==>
      && s.published[k].relative in s.files && s.files[s.published[k].relative] == s.published[k].hashOf
      && s.published[k].size == |s.published[k].hashOf|
  }

  /** No entry, ended or not, has its temporary file where something was published. */
  ghost predicate Apart(s: SpoolState) {
    forall k, i :: 0 <= k < |s.published| && 0 <= i < |s.entries| ==> s.entries[i].TempFile() != s.published[k].relative
  }

  ghost predicate Tidy(s: SpoolState) {
    Sound(s) && DirsClosed(s.dirs) && ReceiptsTrue(s) && Apart(s)
  }

  /** Nothing published at this path before says anything but these bytes. */
  ghost predicate ReceiptsAgree(s: SpoolState, final: FinalPath, bytes: Bytes) {
    forall k :: 0 <= k < |s.published| && s.published[k].relative == final ==> s.published[k].hashOf == bytes
  }

  /** A commit that will go through does not take a name some entry has used for its temporary
      file, nor one under which other bytes were published. */
  ghost predicate Careful(s: SpoolState, op: SpoolOp) {
    op.DoCommit? && IsLive(s, op.handle) && Publishable(s, op.final) ==>
      && (forall i :: 0 <= i < |s.entries| ==> s.entries[i].TempFile() != op.final)
      && ReceiptsAgree(s, op.final, s.entries[Find(s.root, s.entries, op.handle)].hashed)
  }

  /** A commit leaves every receipt true exactly when it fails or no earlier receipt names
      other bytes at its path: publishing a name again replaces what was there. */
  lemma CommitKeepsReceiptsIff(s: SpoolState, handle: nat, final: FinalPath)
    requires Tidy(s) && IsLive(s, handle)
    ensures ReceiptsTrue(Commit(s, handle, final).0) <==>
            (Publishable(s, final) ==> ReceiptsAgree(s, final, s.entries[Find(s.root, s.entries, handle)].hashed))
  {
    CommitSucceedsIff(s, handle, final);
    if Publishable(s, final) {
      CommittedReceiptsIff(s, handle, final);
    } else {
      CommitFailedKeeps(s, handle, final);
    }
  }

  lemma CommitFailedKeeps(s: SpoolState, handle: nat, final: FinalPath)
    requires Commit(s, handle, final).1.Err?
    ensures Commit(s, handle, final).0 == s.(dirs := Commit(s, handle, final).0.dirs)
  {
    hide MakeDirs, FileInTheWay, Find;
  }

  lemma CommittedReceiptsIff(s: SpoolState, handle: nat, final: FinalPath)
    requires Tidy(s) && Commit(s, handle, final).1.Ok? && IsLive(s, handle)
    ensures ReceiptsTrue(Commit(s, handle, final).0) <==>
            ReceiptsAgree(s, final, s.entries[Find(s.root, s.entries, handle)].hashed)
  {
    CommitIs(s, handle, final);
    hide Commit, CleanRoot, DirsClosed, Numbered;
    var i, t := Find(s.root, s.entries, handle), Commit(s, handle, final).0;
    assert LiveFile(s, s.entries[i]);
    assert t.published[|s.published|] == PublishReceipt(final, s.entries[i].written, s.entries[i].hashed);
    forall k | 0 <= k < |s.published|
      ensures t.published[k] == s.published[k]
      ensures s.published[k].relative in t.files
      ensures t.files[s.published[k].relative] == s.published[k].hashOf <==>
              (s.published[k].relative == final ==> s.published[k].hashOf == s.entries[i].hashed)
    {
      assert s.entries[i].TempFile() != s.published[k].relative;
    }
  }

  lemma CommitApartIff(s: SpoolState, handle: nat, final: FinalPath)
    requires Tidy(s) && Commit(s, handle, final).1.Ok?
    ensures Apart(Commit(s, handle, final).0) <==> forall i :: 0 <= i < |s.entries| ==> s.entries[i].TempFile() != final
  {
    CommitIs(s, handle, final);
    hide Commit, Sound, DirsClosed, ReceiptsTrue;
    var c, t := Find(s.root, s.entries, handle), Commit(s, handle, final).0;
    assert forall i :: 0 <= i < |s.entries| ==> t.entries[i].TempFile() == s.entries[i].TempFile();
    assert t.published[|s.published|].relative == final;
    assert forall k :: 0 <= k < |s.published| ==> t.published[k] == s.published[k];
    if Apart(t) {
      forall i | 0 <= i < |s.entries| ensures s.entries[i].TempFile() != final {
        assert t.entries[i].TempFile() != t.published[|s.published|].relative;
      }
    }
  }

  lemma CommitTidyIff(s: SpoolState, handle: nat, final: FinalPath)
    requires Tidy(s)
    ensures Tidy(Commit(s, handle, final).0) <==> Careful(s, DoCommit(handle, final))
  {
    StepKeepsDirs(s, DoCommit(handle, final));
    hide Commit, Sound, DirsClosed, ReceiptsTrue, Apart, Publishable, ReceiptsAgree;
    if IsLive(s, handle) {
      CommitSucceedsIff(s, handle, final);
      CommitKeepsReceiptsIff(s, handle, final);
      CommitSoundIff(s, handle, final);
      if Commit(s, handle, final).1.Ok? {
        CommitApartIff(s, handle, final);
      } else {
        CommitFailedTidy(s, handle, final);
      }
    } else {
      CommitOfNothing(s, handle, final);
    }
  }

  lemma CommitOfNothing(s: SpoolState, handle: nat, final: FinalPath)
    requires !IsLive(s, handle)
    ensures Commit(s, handle, final).0 == s
  {
    hide MakeDirs, FileInTheWay, Find;
  }

  lemma CommitFailedTidy(s: SpoolState, handle: nat, final: FinalPath)
    requires Tidy(s) && Commit(s, handle, final).1.Err?
    ensures Tidy(Commit(s, handle, final).0)
  {
    StepKeepsDirs(s, DoCommit(handle, final));
    CommitFailedSound(s, handle, final);
    CommitFailedKeeps(s, handle, final);
    hide Commit, Sound, DirsClosed;
  }

  lemma OtherOpsKeepReceipts(s: SpoolState, op: SpoolOp)
    requires Tidy(s) && !op.DoCommit?
    ensures ReceiptsTrue(Step(s, op)) && Apart(Step(s, op))
  {
    hide Sound, DirsClosed, Find, Sanitary;
    assert Step(s, op).published == s.published;
  }

  /** Every operation keeps receipts true and temporary names apart from published ones, except
      exactly those commits that take a temporary name or one published with other bytes. */
  lemma StepKeepsTidyIff(s: SpoolState, op: SpoolOp)
    requires Tidy(s) && (op.DoBegin? ==> Dotless(op.entryId))
    ensures Tidy(Step(s, op)) <==> Careful(s, op)
  {
    StepKeepsDirs(s, op);
    hide Commit, Begin, Write, Abort, DirsClosed, ReceiptsTrue, Apart, Sound;
    match op
    case DoCommit(handle, final) => CommitTidyIff(s, handle, final);
    case DoBegin(entryId, parent, name, declared, budget) =>
      BeginSound(s, entryId, parent, name, declared, budget);
      OtherOpsKeepReceipts(s, op);
    case DoWrite(handle, offset, bytes) =>
      WriteSound(s, handle, offset, bytes);
      OtherOpsKeepReceipts(s, op);
    case DoAbort(handle) =>
      AbortSound(s, handle);
      OtherOpsKeepReceipts(s, op);
  }

  ghost predicate AllCareful(s: SpoolState, ops: seq<SpoolOp>) {
    ops == []
    || (&& AllCareful(s, ops[..|ops| - 1])
        && Careful(Play(s, ops[..|ops| - 1]), ops[|ops| - 1])
        && (ops[|ops| - 1].DoBegin? ==> Dotless(ops[|ops| - 1].entryId)))
  }

  /** Over whole runs of such operations every receipt ever given stays true. */
  lemma {:induction false} ReceiptsStayTrue(s: SpoolState, ops: seq<SpoolOp>)
    requires Tidy(s) && AllCareful(s, ops)
    ensures Tidy(Play(s, ops))
    decreases |ops|
  {
    if ops == [] {
    } else {
      hide Tidy, Careful, Step;
      ReceiptsStayTrue(s, ops[..|ops| - 1]);
      StepKeepsTidyIff(Play(s, ops[..|ops| - 1]), ops[|ops| - 1]);
    }
  }

  // ---------------------------------------------------------------- the store object

  class SpoolStore {
    const root: string
    var entries: seq<SpoolEntry>
    var published: seq<PublishReceipt>
    var nextHandle: nat
    var files: map<Path, Bytes>
    var dirs: set<Path>

    ghost function Model(): SpoolState
      reads this
    {
      SpoolState(root, entries, published, nextHandle, files, dirs)
    }

    constructor (root: string)
      ensures Model() == SpoolState(root, [], [], 1, map[], {})
    {
      this.root := root;
      entries, published, nextHandle := [], [], 1;
      files, dirs := map[], {};
    }

    method EntryIndex(handle: nat) returns (i: nat)
      ensures i == Find(root, entries, handle)
    {
      i := 0;
      while i < |entries| && !Matches(root, entries[i], handle)
        invariant i <= |entries|
        invariant Find(root, entries, handle) == i + Find(root, entries[i..], handle)
      {
        i := i + 1;
      }
    }

    method BeginEntry(entryId: string, parent: Option<seq<string>>, name: string, declared: nat, budget: nat)
      returns (r: Result<nat>)
      modifies this
      ensures (Model(), r) == Begin(old(Model()), entryId, parent, name, declared, budget)
    {
      if !Sanitary(parent, name) {
        return Err(InvalidFrame);
      }
      var handle := nextHandle;
      nextHandle := nextHandle + 1;
      var e := SpoolEntry(handle, entryId, Min(budget, declared), [], 0, false);
      if e.TempFile() in files || e.TempFile() in dirs {
        return Err(DestinationUnavailable);
      }
      files := files[e.TempFile() := []];
      entries := entries + [e];
      return Ok(handle);
    }

    method RemoveAndTerminate(i: nat)
      requires i < |entries|
      modifies this
      ensures Model() == Terminate(old(Model()), i)
    {
      var e := entries[i];
      entries := entries[i := e.(terminated := true)];
      files := files - {e.TempFile()};
    }

    method WriteChunk(handle: nat, offset: nat, bytes: Bytes) returns (r: Result<()>)
      modifies this
      ensures (Model(), r) == Write(old(Model()), handle, offset, bytes)
    {
      var i := EntryIndex(handle);
      if i == |entries| {
        return Err(InvalidFrame);
      }
      var e := entries[i];
      if e.terminated {
        return Err(ResourceLimit);
      }
      if offset != e.written {
        return Err(InvalidFrame);
      }
      if e.written + |bytes| > e.budget {
        RemoveAndTerminate(i);
        return Err(ResourceLimit);
      }
      if e.TempFile() !in files {
        return Err(DestinationUnavailable);
      }
      files := files[e.TempFile() := files[e.TempFile()] + bytes];
      entries := entries[i := e.(hashed := e.hashed + bytes, written := e.written + |bytes|)];
      return Ok(());
    }

    method CommitEntry(handle: nat, final: FinalPath) returns (r: Result<PublishReceipt>)
      modifies this
      ensures (Model(), r) == Commit(old(Model()), handle, final)
    {
      var i := EntryIndex(handle);
      if i == |entries| {
        return Err(InvalidFrame);
      }
      var e := entries[i];
      if e.terminated {
        return Err(ResourceLimit);
      }
      if FileInTheWay(files, final) {
        return Err(InvalidFrame);
      }
      var k := 1;
      while k < |final|
        invariant 1 <= k <= |final|
        invariant unchanged(`entries) && unchanged(`published) && unchanged(`nextHandle) && unchanged(`files)
        invariant MakeDirs(old(dirs), files, final, 1) == MakeDirs(dirs, files, final, k)
      {
        if final[..k] in dirs || final[..k] in files {
          return Err(DestinationUnavailable);
        }
        dirs := dirs + {final[..k]};
        k := k + 1;
      }
      if e.TempFile() !in files || final in dirs {
        return Err(DestinationUnavailable);
      }
      files := (files - {e.TempFile()})[final := files[e.TempFile()]];
      var receipt := PublishReceipt(final, e.written, e.hashed);
      entries := entries[i := e.(terminated := true)];
      published := published + [receipt];
      return Ok(receipt);
    }

    method AbortEntry(handle: nat) returns (r: Result<()>)
      modifies this
      ensures (Model(), r) == Abort(old(Model()), handle)
    {
      var i := EntryIndex(handle);
      if i == |entries| {
        return Err(InvalidFrame);
      }
      RemoveAndTerminate(i);
      return Ok(());
    }
  }
}

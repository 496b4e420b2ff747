/** What the spool answers to the holder of a handle, and what an error leaves behind, told from
    the entries and not from the lookup. */
module SpoolAnswers {
  import opened Prelude
  import opened SpoolNames
  import opened Spool

  /** The entry of a handle: there is at most one. */
  function EntryWith(entries: seq<SpoolEntry>, handle: nat): (r: Option<SpoolEntry>)
    ensures r.Some? ==> r.value in entries && r.value.handle == handle
    ensures r.None? ==> forall i :: 0 <= i < |entries| ==> entries[i].handle != handle
    decreases |entries|
  {
    if entries == [] then None
    else if entries[0].handle == handle then Some(entries[0])
    else EntryWith(entries[1..], handle)
  }

  lemma FoundIsOwn(s: SpoolState, handle: nat)
    requires Sound(s)
    ensures var i := Find(s.root, s.entries, handle);
            EntryWith(s.entries, handle) == if i < |s.entries| then Some(s.entries[i]) else None
  {
    hide Matches;
    FindInCleanRoot(s.root, s.entries, s.nextHandle, handle);
  }

  // ---------------------------------------------------------------- opening

  /** A path that is not safe is refused before a handle is spent; a temporary name that is taken
      costs one. Otherwise the entry is opened under the next handle, empty, and limited by both
      the declared size and the budget. */
  lemma BeginAnswer(s: SpoolState, entryId: string, parent: Option<seq<string>>, name: string, declared: nat,
      budget: nat)
    requires Sound(s)
    ensures var (t, r) := Begin(s, entryId, parent, name, declared, budget);
            var temp := [".tmp-" + Decimal(s.nextHandle) + "-" + entryId];
            && (r == Err(InvalidFrame) <==> !Sanitary(parent, name))
            && (r == Err(DestinationUnavailable) <==> Sanitary(parent, name) && (temp in s.files || temp in s.dirs))
            && (r.Err? ==>
                  t == s.(nextHandle := if Sanitary(parent, name) then s.nextHandle + 1 else s.nextHandle))
            && (r.Ok? ==>
                  && r.value == s.nextHandle && t.files == s.files[temp := []]
                  && t.entries == s.entries + [SpoolEntry(r.value, entryId, Min(declared, budget), [], 0, false)])
  {
    hide Sanitary, CleanRoot, Decimal;
  }

  // ---------------------------------------------------------------- writing

  /** What a write is answered with. A handle that is unknown and an offset that is not the next
      byte are invalid and change nothing; an entry that was ended takes no more. Bytes beyond the
      limit of the entry end it: its file is gone, and whatever is written to it later is refused. */
  lemma WriteAnswer(s: SpoolState, handle: nat, offset: nat, bytes: Bytes, later: nat, more: Bytes)
    requires Sound(s)
    ensures var (t, r) := Write(s, handle, offset, bytes);
            var e := EntryWith(s.entries, handle);
            if e.None? then (t, r) == (s, Err(InvalidFrame))
            else if e.value.terminated then (t, r) == (s, Err(ResourceLimit))
            else if offset != |e.value.hashed| then (t, r) == (s, Err(InvalidFrame))
            else if offset + |bytes| > e.value.budget then
              && r == Err(ResourceLimit) && t.files == s.files - {e.value.TempFile()}
              && Write(t, handle, later, more) == (t, Err(ResourceLimit))
            else
              && r == Ok(()) && t.files == s.files[e.value.TempFile() := e.value.hashed + bytes]
              && EntryWith(t.entries, handle).Some?
              && EntryWith(t.entries, handle).value.hashed == e.value.hashed + bytes
  {
    hide Matches, CleanRoot, TempName;
    var t := Write(s, handle, offset, bytes).0;
    FoundIsOwn(s, handle);
    WriteSound(s, handle, offset, bytes);
    FoundIsOwn(t, handle);
    WriteLookup(s, handle, offset, bytes);
  }

  /** A write moves no entry. */
  lemma WriteLookup(s: SpoolState, handle: nat, offset: nat, bytes: Bytes)
    ensures var t := Write(s, handle, offset, bytes).0;
            t.root == s.root && Find(t.root, t.entries, handle) == Find(s.root, s.entries, handle)
  {
    hide Matches, TempName;
    var t := Write(s, handle, offset, bytes).0;
    SameLookup(s.root, s.entries, t.entries, handle);
  }

  // ---------------------------------------------------------------- ending

  /** An entry that is known is ended, whatever became of it before: its file is gone, and it takes
      no more. */
  lemma AbortAnswer(s: SpoolState, handle: nat, later: nat, more: Bytes)
    requires Sound(s)
    ensures var (t, r) := Abort(s, handle);
            var e := EntryWith(s.entries, handle);
            if e.None? then (t, r) == (s, Err(InvalidFrame))
            else
              && r == Ok(()) && t.files == s.files - {e.value.TempFile()}
              && Write(t, handle, later, more) == (t, Err(ResourceLimit))
  {
    hide Matches, CleanRoot, TempName;
    FoundIsOwn(s, handle);
    SameLookup(s.root, s.entries, Abort(s, handle).0.entries, handle);
  }

  // ---------------------------------------------------------------- publishing

  /** The first folder of the path, from `k` on, that cannot be created; |final| when all can. */
  function FirstTaken(dirs: set<Path>, files: map<Path, Bytes>, final: Path, k: nat): (j: nat)
    requires 1 <= k <= |final|
    ensures k <= j <= |final|
    ensures j < |final| ==> final[..j] in dirs || final[..j] in files
    ensures forall i :: k <= i < j ==> final[..i] !in dirs && final[..i] !in files
    decreases |final| - k
  {
    if k == |final| || final[..k] in dirs || final[..k] in files then k
    else FirstTaken(dirs, files, final, k + 1)
  }

  /** The folders on the way to the path, from `k` to before `j` components long. */
  function Folders(final: Path, k: nat, j: nat): set<Path>
    requires j <= |final|
  {
    set i | k <= i < j :: final[..i]
  }

  lemma FoldersFrom(final: Path, k: nat, j: nat)
    requires k <= j <= |final|
    ensures Folders(final, k, k) == {}
    ensures k < j ==> Folders(final, k, j) == {final[..k]} + Folders(final, k + 1, j)
  {
    if k < j {
      assert final[..k] in Folders(final, k, j);
    }
  }

  lemma {:induction false} MakeDirsIs(dirs: set<Path>, files: map<Path, Bytes>, final: Path, k: nat)
    requires 1 <= k <= |final|
    ensures var (made, ok) := MakeDirs(dirs, files, final, k);
            var j := FirstTaken(dirs, files, final, k);
            && (ok <==> j == |final|)
            && made == dirs + Folders(final, k, j)
    decreases |final| - k
  {
    hide Folders;
    FoldersFrom(final, k, FirstTaken(dirs, files, final, k));
    if k == |final| || final[..k] in dirs || final[..k] in files {
    } else {
      MakeDirsIs(dirs + {final[..k]}, files, final, k + 1);
      FirstTakenPast(dirs, files, final, k);
    }
  }

  /** Creating one folder is in the way of none of the longer ones. */
  lemma FirstTakenPast(dirs: set<Path>, files: map<Path, Bytes>, final: Path, k: nat)
    requires 1 <= k < |final| && final[..k] !in dirs && final[..k] !in files
    ensures FirstTaken(dirs + {final[..k]}, files, final, k + 1) == FirstTaken(dirs, files, final, k)
  {
    TakenWithShorter(dirs, files, final, k, k + 1);
  }

  lemma {:induction false} TakenWithShorter(dirs: set<Path>, files: map<Path, Bytes>, final: Path, short: nat, k: nat)
    requires 1 <= short < k <= |final|
    ensures FirstTaken(dirs + {final[..short]}, files, final, k) == FirstTaken(dirs, files, final, k)
    decreases |final| - k
  {
    if k == |final| {
    } else {
      assert |final[..k]| != |final[..short]|;
      TakenWithShorter(dirs, files, final, short, k + 1);
    }
  }

  /** What publishing is answered with when it fails. A handle that is unknown is invalid, an entry
      that was ended takes no more, and a file where a folder would be is invalid: nothing changes.
      Otherwise the destination is not available - because a folder is there already, or the path
      itself is one -, the entry lives on with its file, and the folders made so far stay. */
  lemma CommitAnswer(s: SpoolState, handle: nat, final: FinalPath)
    requires Sound(s)
    ensures var (t, r) := Commit(s, handle, final);
            var e, j := EntryWith(s.entries, handle), FirstTaken(s.dirs, s.files, final, 1);
            if e.None? then (t, r) == (s, Err(InvalidFrame))
            else if e.value.terminated then (t, r) == (s, Err(ResourceLimit))
            else if exists k :: 1 <= k < |final| && final[..k] in s.files then (t, r) == (s, Err(InvalidFrame))
            else
              && t.dirs == s.dirs + Folders(final, 1, j)
              && (r.Err? <==> j < |final| || final in s.dirs)
              && (r.Err? ==> r == Err(DestinationUnavailable) && t == s.(dirs := t.dirs))
              && (r.Ok? ==> t.published == s.published + [r.value])
  {
    hide Matches, CleanRoot, TempName, MakeDirs;
    FoundIsOwn(s, handle);
    MakeDirsIs(s.dirs, s.files, final, 1);
    assert forall i :: 1 <= i < |final| ==> |final[..i]| < |final|;
  }
}

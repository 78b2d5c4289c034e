/** Construction of a recursive watcher (rwatch.go, `NewRecursiveWatcher`):
    the event source is created, the root is made absolute, and a walk of
    the tree registers every directory it visits until a registration fails.
    The walk's visiting order is given as the sequence of entries it
    produces. */
module Construction {
  import opened Results

  /** One entry visited by the walk: its path, whether it is a directory,
      and what registering it with the event source would answer. The
      answer is only asked for directories. */
  datatype WalkEntry = WalkEntry(path: string, isDir: bool, add: Outcome)

  /** The directories registered by a walk and the error it returned. */
  datatype WalkResult = WalkResult(subDirs: set<string>, err: Outcome)

  /** A constructed watcher: its absolute root and its watched set. */
  datatype RecursiveWatcher = RecursiveWatcher(root: string, subDirs: set<string>)

  predicate AddFails(e: WalkEntry) {
    e.isDir && e.add.Fail?
  }

  /** The position of the first directory whose registration fails, or
      `|entries|` if there is none. */
  function FirstAddFailure(entries: seq<WalkEntry>): (k: nat)
    ensures k <= |entries|
    ensures forall i :: 0 <= i < k ==> !AddFails(entries[i])
    ensures k < |entries| ==> AddFails(entries[k])
    decreases |entries|
  {
    if |entries| == 0 then 0
    else if AddFails(entries[0]) then 0
    else 1 + FirstAddFailure(entries[1..])
  }

  /** The directory paths among the first `k` entries. */
  function DirsBefore(entries: seq<WalkEntry>, k: nat): set<string>
    requires k <= |entries|
  {
    set i | 0 <= i < k && entries[i].isDir :: entries[i].path
  }

  lemma DirsBeforeCons(entries: seq<WalkEntry>, k: nat)
    requires 1 <= k <= |entries|
    ensures DirsBefore(entries, k)
         == (if entries[0].isDir then {entries[0].path} else {}) + DirsBefore(entries[1..], k - 1)
  {
    var rest := entries[1..];
    forall p | p in DirsBefore(rest, k - 1) ensures p in DirsBefore(entries, k) {
      var i :| 0 <= i < k - 1 && rest[i].isDir && rest[i].path == p;
      assert entries[i + 1] == rest[i];
    }
    forall p | p in DirsBefore(entries, k) && !(entries[0].isDir && p == entries[0].path)
      ensures p in DirsBefore(rest, k - 1)
    {
      var i :| 0 <= i < k && entries[i].isDir && entries[i].path == p;
      assert i != 0;
      assert rest[i - 1] == entries[i];
    }
  }

  /** The walk callback applied to each entry in turn: a directory is
      registered and added to the set; a failed registration ends the walk
      with that error. */
  function Walk(acc: set<string>, entries: seq<WalkEntry>): (r: WalkResult)
    ensures r.subDirs == acc + DirsBefore(entries, FirstAddFailure(entries))
    ensures r.err.Fail? <==> FirstAddFailure(entries) < |entries|
    ensures r.err.Fail? ==> r.err == entries[FirstAddFailure(entries)].add
    decreases |entries|
  {
    if |entries| == 0 then WalkResult(acc, Pass)
    else
      var e := entries[0];
      var k := FirstAddFailure(entries);
      if e.isDir then
        match e.add
        case Fail(cause) =>
          assert DirsBefore(entries, 0) == {};
          WalkResult(acc, Fail(cause))
        case Pass =>
          DirsBeforeCons(entries, k);
          Walk(acc + {e.path}, entries[1..])
      else
        DirsBeforeCons(entries, k);
        Walk(acc, entries[1..])
  }

  /** The walk registers every directory before the first failing
      registration, only directories, and nothing from the failing entry on. */
  lemma WalkRegisters(entries: seq<WalkEntry>)
    ensures var k := FirstAddFailure(entries);
            var r := Walk({}, entries);
            && (forall i :: 0 <= i < k && entries[i].isDir ==> entries[i].path in r.subDirs)
            && (forall p :: p in r.subDirs ==> exists i :: 0 <= i < k && entries[i].isDir && entries[i].path == p)
  {
  }

  /** Entries after the first failing registration do not matter. */
  lemma {:induction false} WalkStopsAtFailure(acc: set<string>, entries: seq<WalkEntry>, rest: seq<WalkEntry>)
    requires FirstAddFailure(entries) < |entries|
    ensures Walk(acc, entries[..FirstAddFailure(entries) + 1] + rest) == Walk(acc, entries)
  {
    var k := FirstAddFailure(entries);
    var cut := entries[..k + 1] + rest;
    assert forall i :: 0 <= i <= k ==> cut[i] == entries[i];
    FirstAddFailureUpTo(entries, cut, k);
    assert DirsBefore(cut, k) == DirsBefore(entries, k);
  }

  lemma {:induction false} FirstAddFailureUpTo(a: seq<WalkEntry>, b: seq<WalkEntry>, k: nat)
    requires k < |a| && k < |b|
    requires forall i :: 0 <= i <= k ==> a[i] == b[i]
    requires FirstAddFailure(a) == k
    ensures FirstAddFailure(b) == k
    decreases k
  {
    if k > 0 {
      assert !AddFails(b[0]);
      FirstAddFailureUpTo(a[1..], b[1..], k - 1);
    }
  }

  /** Construction as written. A failure to create the event source or to
      make the root absolute is returned. The walk's own error is dropped,
      and the error test after the walk looks at the earlier, already nil,
      error: construction then always succeeds, with the directories
      registered before the first failing registration. */
  function NewRecursiveWatcher(init: Outcome, resolve: Result<string>, entries: seq<WalkEntry>)
    : (r: Result<RecursiveWatcher>)
    ensures init.Fail? ==> r == Err(init.cause)
    ensures init.Pass? && resolve.Err? ==> r == Err(resolve.cause)
    ensures init.Pass? && resolve.Ok? ==> r.Ok? && r.value.root == resolve.value
    ensures r.Ok? ==> r.value.subDirs == DirsBefore(entries, FirstAddFailure(entries))
  {
    match init
    case Fail(cause) => Err(cause)
    case Pass =>
      match resolve
      case Err(cause) => Err(cause)
      case Ok(root) =>
        var walk := Walk({}, entries);
        Ok(RecursiveWatcher(root, walk.subDirs))
  }

  /** A directory whose registration fails does not stop construction: the
      watcher comes up without it. */
  lemma ConstructionIgnoresWalkFailure()
    ensures var entries := [WalkEntry("/w", true, Pass), WalkEntry("/w/sub", true, Fail("too many open files"))];
            var r := NewRecursiveWatcher(Pass, Ok("/w"), entries);
            && r == Ok(RecursiveWatcher("/w", {"/w"}))
            && entries[1].isDir && entries[1].path !in r.value.subDirs
  {
    var entries := [WalkEntry("/w", true, Pass), WalkEntry("/w/sub", true, Fail("too many open files"))];
    assert FirstAddFailure(entries) == 1 by {
      assert entries[1..] == [entries[1]];
    }
    assert DirsBefore(entries, 1) == {"/w"};
  }

  /** Construction with the walk's error returned, as the error test after
      the walk evidently intends: it succeeds only when every directory was
      registered, and then every directory visited is watched. */
  function NewRecursiveWatcherChecked(init: Outcome, resolve: Result<string>, entries: seq<WalkEntry>)
    : (r: Result<RecursiveWatcher>)
    ensures r.Ok? <==> init.Pass? && resolve.Ok? && forall i :: 0 <= i < |entries| ==> !AddFails(entries[i])
    ensures r.Ok? ==> r.value.root == resolve.value
    ensures r.Ok? ==> forall i :: 0 <= i < |entries| && entries[i].isDir ==> entries[i].path in r.value.subDirs
    ensures r.Ok? ==> forall p :: p in r.value.subDirs ==> exists i :: 0 <= i < |entries| && entries[i].isDir && entries[i].path == p
    ensures init.Pass? && resolve.Ok? && !r.Ok? ==> r == Err(entries[FirstAddFailure(entries)].add.cause)
  {
    match init
    case Fail(cause) => Err(cause)
    case Pass =>
      match resolve
      case Err(cause) => Err(cause)
      case Ok(root) =>
        var walk := Walk({}, entries);
        match walk.err
        case Fail(cause) => Err(cause)
        case Pass => Ok(RecursiveWatcher(root, walk.subDirs))
  }
}

/** The classification of one raw event (rwatch.go, `handleMessage` and
    `handleError`). The watcher's only state is the set of directory paths
    it has registered with the event source. The two calls into the
    environment, the stat of the event's path and the registration of a new
    directory, are given as their answers. */
module Classify {
  import opened Results
  import opened FsOp
  import opened Messages

  /** A raw event: the path it names and its operation word. */
  datatype Event = Event(name: string, op: Op)

  /** The answer of a stat of the event's path. */
  datatype StatResult = StatErr(cause: string) | StatOk(info: FileInfo)

  /** The registered directories after a step, and the messages the step
      emitted, in emission order. */
  datatype StepResult = StepResult(subDirs: set<string>, out: seq<Message>)

  /** Wraps an error as a message; the path is empty when the error is not
      about one path. */
  function HandleError(cause: string, path: string): Message {
    Error(path, cause)
  }

  /** The cause reported for an operation word that is none of the five
      single kinds. */
  function UnknownOpCause(op: Op): string {
    "unknown op (" + OpText(op) + ")"
  }

  /** True iff the event is the creation of a directory whose registration
      succeeded: the only way a path joins the watched set. */
  predicate IsDirCreate(e: Event, stat: StatResult, add: Outcome) {
    e.op == Create && stat.StatOk? && stat.info.isDir && add.Pass?
  }

  /** Classifies one raw event against the watched set `subDirs`. `stat` is
      consulted for every operation but Remove; `add` only for a Create
      whose stat says directory. */
  function HandleMessage(subDirs: set<string>, e: Event, stat: StatResult, add: Outcome): (r: StepResult)
    ensures |r.out| <= 2
    // Only the event's own path can enter or leave the set.
    ensures r.subDirs - subDirs <= {e.name} && subDirs - r.subDirs <= {e.name}
    ensures (e.name !in subDirs && e.name in r.subDirs) <==> (e.name !in subDirs && IsDirCreate(e, stat, add))
    ensures (e.name in subDirs && e.name !in r.subDirs) <==> (e.name in subDirs && e.op == Remove)
    // Stat information in a message is the fresh stat of the event's path.
    ensures forall m :: m in r.out && m.CarriesInfo() ==> m.path == e.name && stat == StatOk(m.file)
    // A Deleted message is emitted exactly when a watched path is removed.
    ensures (exists m :: m in r.out && m.Deleted?) <==> (e.op == Remove && e.name in subDirs)
    ensures forall m :: m in r.out && m.Deleted? ==> m.path == e.name
  {
    if e.op == Remove then
      if e.name in subDirs then StepResult(subDirs - {e.name}, [Deleted(e.name)])
      else StepResult(subDirs, [])
    else
      match stat
      case StatErr(cause) => StepResult(subDirs, [HandleError(cause, e.name)])
      case StatOk(fi) =>
        if e.op == Create then
          var created := Created(e.name, fi);
          if fi.isDir then
            match add
            case Fail(cause) => StepResult(subDirs, [created, HandleError(cause, e.name)])
            case Pass => StepResult(subDirs + {e.name}, [created])
          else StepResult(subDirs, [created])
        else if e.op == Write then StepResult(subDirs, [Changed(e.name, fi)])
        else if e.op == Rename then StepResult(subDirs, [Renamed(e.name, fi)])
        else if e.op == Chmod then StepResult(subDirs, [Chmoded(e.name, fi)])
        else StepResult(subDirs, [HandleError(UnknownOpCause(e.op), "")])
  }

  // ----- Remove -----

  /** Removing a watched path drops exactly that path and emits one Deleted. */
  lemma RemoveWatched(subDirs: set<string>, e: Event, stat: StatResult, add: Outcome)
    requires e.op == Remove && e.name in subDirs
    ensures HandleMessage(subDirs, e, stat, add).subDirs == subDirs - {e.name}
    ensures HandleMessage(subDirs, e, stat, add).out == [Deleted(e.name)]
  {
  }

  /** Removing a path that is not watched is silent and changes nothing. */
  lemma RemoveUnwatched(subDirs: set<string>, e: Event, stat: StatResult, add: Outcome)
    requires e.op == Remove && e.name !in subDirs
    ensures HandleMessage(subDirs, e, stat, add) == StepResult(subDirs, [])
  {
  }

  /** A Remove never looks at the stat or registration answers and never
      adds to the set. */
  lemma RemoveIgnoresEnvironment(subDirs: set<string>, e: Event,
                                 stat1: StatResult, add1: Outcome,
                                 stat2: StatResult, add2: Outcome)
    requires e.op == Remove
    ensures HandleMessage(subDirs, e, stat1, add1) == HandleMessage(subDirs, e, stat2, add2)
    ensures HandleMessage(subDirs, e, stat1, add1).subDirs <= subDirs
  {
  }

  // ----- Operations that stat the path -----

  /** A failed stat emits one error about the event's path and stops there. */
  lemma StatFailure(subDirs: set<string>, e: Event, cause: string, add: Outcome)
    requires e.op != Remove
    ensures HandleMessage(subDirs, e, StatErr(cause), add) == StepResult(subDirs, [Error(e.name, cause)])
  {
  }

  /** A Create with a good stat emits Created first; a directory is then
      registered and watched, or its registration failure is reported. */
  lemma CreateClassified(subDirs: set<string>, e: Event, fi: FileInfo, add: Outcome)
    requires e.op == Create
    ensures var r := HandleMessage(subDirs, e, StatOk(fi), add);
      && |r.out| >= 1
      && r.out[0] == Created(e.name, fi)
      && (fi.isDir && add.Pass? ==> r.subDirs == subDirs + {e.name} && |r.out| == 1)
      && (fi.isDir && add.Fail? ==> r.subDirs == subDirs && r.out[1..] == [Error(e.name, add.cause)])
      && (!fi.isDir ==> r.subDirs == subDirs && |r.out| == 1)
  {
  }

  /** Write, Rename and Chmod with a good stat each emit one message of the
      matching variant carrying the fresh stat, and leave the set alone. */
  lemma ChangeClassified(subDirs: set<string>, e: Event, fi: FileInfo, add: Outcome)
    requires e.op in {Write, Rename, Chmod}
    ensures var r := HandleMessage(subDirs, e, StatOk(fi), add);
      && r.subDirs == subDirs
      && |r.out| == 1
      && r.out[0].CarriesInfo() && r.out[0].path == e.name && r.out[0].file == fi
      && KindOf(r.out[0]) == (if e.op == Write then ChangedKind
                              else if e.op == Rename then RenamedKind
                              else ChmodedKind)
  {
  }

  /** An operation word that is not one of the five single kinds, such as a
      combined bit set, is reported as one path-less error. */
  lemma UnknownOp(subDirs: set<string>, e: Event, fi: FileInfo, add: Outcome)
    requires !IsSingle(e.op)
    ensures HandleMessage(subDirs, e, StatOk(fi), add)
         == StepResult(subDirs, [Error("", UnknownOpCause(e.op))])
  {
  }

  /** The combined word Create|Write matches no case of the comparison:
      an instance of `UnknownOp`. */
  lemma CreateWriteIsUnknown(subDirs: set<string>, name: string, fi: FileInfo, add: Outcome)
    ensures HandleMessage(subDirs, Event(name, 3), StatOk(fi), add)
         == StepResult(subDirs, [Error("", UnknownOpCause(3))])
  {
  }
}

# rwatch: a Dafny model of the recursive watch-set manager

`rwatch` is a Go package that turns a single-directory change notifier
(fsnotify) into a recursive watcher. It keeps a set of the directories it
has registered, called `subDirs`. It classifies each raw event `(path, op)`
into a typed `Message`, and it grows or shrinks that set as directories
appear and disappear. This project models that core:

- `message.dfy` (module `Messages`) models the six message variants as one
  closed datatype, together with their one-line `String()` rendering. It
  also defines `Parse`, a reader for rendered lines, used as the partner
  of `Render`.
- `fsop.dfy` (module `FsOp`) models the operation word as an unsigned
  32-bit bit set. The flags are Create=1, Write=2, Remove=4, Rename=8 and
  Chmod=16. An op is classified by comparing it with `==`, so a word with
  several bits set matches no case.
- `classify.dfy` (module `Classify`) models `handleMessage` and
  `handleError` as a pure step function. It maps the watched set, one
  event, the stat answer and the registration answer to a new set and the
  messages emitted, in order.
- `loop.dfy` (module `EventLoop`) models `run` as a left-to-right fold of
  that step over a merged sequence of inputs. Each input is a raw event or
  a source error.
- `walk.dfy` (module `Construction`) models `NewRecursiveWatcher`: the
  initial walk, as a fold over the visited entries, and the constructor's
  error paths.
- `results.dfy` (module `Results`) defines `Outcome`, `Result` and
  `Option`, which carry Go `error` values as their text.

The environment enters only as answers:

- the result of `fsnotify.NewWatcher`;
- the resolved root, meaning the root itself when it is already absolute
  and otherwise what `filepath.Abs` returned;
- the list of entries `filepath.Walk` visits, each with its is-directory
  flag and the answer `Add` would give for it;
- for each event, the answer of `os.Stat` and of `Add`.

Three behaviours of the code shape the model:

- Construction succeeds when registering a directory fails during the
  initial walk. See Findings.
- The event source is created before the root is made absolute.
- An op word that is none of the five single flags is reported with the
  cause `unknown op (<op>)` and an empty path.

## Model

| member | source | states |
|---|---|---|
| Messages.RenderShape | message.go:39-61 | Every line is the variant's tag, " (", then the path. After the path comes "): " and the cause for Error, ")" for Deleted, and ") (dir=<true/false>)" for the four variants that carry stat information |
| Messages.LeadsPrefixFree | message.go:39-61 | The six tags ERROR, CREATED, CHANGED, DELETED, RENAMED and CHMODED, each followed by " (", are distinct, and none is a prefix of another |
| Messages.KindOfRendered | message.go:39-61 | The leading tag of any rendered message identifies its variant |
| Messages.ParseRender | message.go:39-61 | Reading a rendered line back gives the original message: path, cause and dir flag are all recovered. The one condition is that an Error path does not contain "): " |
| Messages.ParseRenderError | message.go:39-41 | An Error line reads back as the same Error exactly when its path does not contain "): ", so ParseRender's condition is the exact one |
| Messages.ErrorRenderAmbiguous | message.go:39-41 | Two different Error messages, one with "): " in its path, render to the same line |
| Messages.DeletedHasNoDirField | message.go:51-53 | A Deleted line contains "dir=" exactly when its path does, so the line has no dir field of its own |
| FsOp.CombinedIsNotSingle | rwatch.go:86-131 | The sum of two different single flags still fits in 32 bits and is equal to none of the five single flags |
| Classify.HandleMessage | rwatch.go:85-132 | One event emits at most two messages. Only the event's path can enter or leave the set. It enters exactly on a Create whose stat says directory and whose Add succeeds. It leaves exactly on a Remove of a watched path. Every message with stat information carries the event's path and the fresh stat. A Deleted is emitted exactly when a watched path is removed |
| Classify.RemoveWatched | rwatch.go:86-92 | A Remove of a watched path drops exactly that path from the set and emits exactly [Deleted(path)] |
| Classify.RemoveUnwatched | rwatch.go:86-94 | A Remove of an unwatched path emits nothing and leaves the set unchanged |
| Classify.RemoveIgnoresEnvironment | rwatch.go:86-94 | A Remove gives the same result whatever the stat and Add answers, and never adds to the set |
| Classify.StatFailure | rwatch.go:95-99 | Any other op with a failed stat emits exactly one Error carrying the event's path and the stat's cause, and leaves the set unchanged |
| Classify.CreateClassified | rwatch.go:101-113 | A Create with a good stat emits Created(path, info) first. For a directory whose Add succeeds, the path is added and nothing else is emitted. For a directory whose Add fails, one Error(path, cause) follows and the set is unchanged. For a non-directory, nothing more happens |
| Classify.ChangeClassified | rwatch.go:114-128 | Write, Rename and Chmod with a good stat each emit exactly one Changed, Renamed or Chmoded message. The message carries the event's path and the fresh stat, and the set is unchanged |
| Classify.UnknownOp | rwatch.go:100-130 | An op word that is none of the five single flags, after a good stat, emits one Error with an empty path and an "unknown op (...)" cause. The set is unchanged |
| Classify.CreateWriteIsUnknown | rwatch.go:100-131 | The combined word Create\|Write is classified as an unknown op |
| EventLoop.Run | rwatch.go:60-83 | A run over n inputs emits at most 2n messages. The set gains only paths of successful directory Creates among the inputs, and loses only paths of Remove events |
| EventLoop.RunBounds | rwatch.go:60-83 | The fold of the step over the inputs keeps the bounds stated for Run |
| EventLoop.FoldAppend | rwatch.go:62-75 | Folding over a+b is folding over a and then over b, starting from the set a left. The outputs are concatenated in order |
| EventLoop.RunAppend | rwatch.go:62-75 | The loop's output over consecutive stretches of input is the in-order concatenation of each stretch's output |
| EventLoop.RunOne | rwatch.go:62-75 | Running over a single input is one call of the step for that input |
| EventLoop.RunSnoc | rwatch.go:62-75 | A new input's messages come after those of all earlier inputs, and it is handled in the set they left |
| EventLoop.SourceErrorForwarded | rwatch.go:69-83 | A source error emits exactly one Error with an empty path and the source's cause, and leaves the set unchanged |
| EventLoop.RemoveTwice | rwatch.go:86-94 | Removing a watched directory twice emits a single Deleted. The second Remove is silent |
| EventLoop.CreateThenRemove | rwatch.go:86-113 | A directory created and registered during the run is watched: a later Remove of it emits Deleted and restores the set |
| EventLoop.NoCreateNoGrowth | rwatch.go:101-113 | Without a successful directory Create among the inputs, the set never grows |
| Construction.FirstAddFailure | rwatch.go:39-42 | Gives the position of the first directory entry whose Add fails, or the number of entries when no Add fails. No earlier entry is a failing directory |
| Construction.Walk | rwatch.go:37-46 | The walk registers the directory paths among the entries before the first failing Add. It returns that Add's error, or nil when no Add fails |
| Construction.WalkRegisters | rwatch.go:37-46 | Every directory visited before the first failing Add is in the set. Every path in the set is such a directory; non-directories are never added |
| Construction.WalkStopsAtFailure | rwatch.go:39-42 | Entries after the first failing Add have no effect on the walk's result |
| Construction.NewRecursiveWatcher | rwatch.go:19-52 | A failure of NewWatcher is returned first, then a failure to make the root absolute. Otherwise construction succeeds with the resolved root, even when an Add failed during the walk. The set is the directories registered before the first failure |
| Construction.ConstructionIgnoresWalkFailure | rwatch.go:37-49 | Concrete case: a second directory whose Add fails is missing from the set, and construction still succeeds |
| Construction.NewRecursiveWatcherChecked | rwatch.go:37-49 | The corrected version that returns the walk's error. It succeeds exactly when NewWatcher, root resolution and every Add succeed. Then every visited directory is watched, and only visited directories are |

## Left out

- The fsnotify watcher is a foreign library. Its creation result and each `Add` answer are inputs.
- `os.Stat` and `os.FileInfo` are not modelled. A stat is an answer: either an error text or the is-directory flag.
- `filepath.IsAbs`, `filepath.Abs` and the traversal order of `filepath.Walk` are path-library behaviour. The resolved root and the list of visited entries are given.
- The nil `info` dereference at rwatch.go:38 when the walk reports an error is not modelled. Walk entries always carry information.
- Goroutines, the blocking channel hand-off of messages, `Close` and `doneC` are concurrency and are not modelled. `Close` closes `Messages` before the loop has exited, which can cause a send on a closed channel. That is not visible in a sequential model.
- The loop ends when either input channel closes. Here the end of the input sequence stands for that.
- The interleaving of the event and error channels chosen by `select` is given as the order of the input sequence.
- Go's `%v` formatting of `error` values is not modelled. A cause is its text.
- `OpText`, the text of an op word inside the unknown-op cause, follows the flag names of fsnotify's `Op.String`. fsnotify is not part of this model, and an op word with no known bit set is rendered as the empty string.
- Construction.NewRecursiveWatcher: it does not model that the watcher created at rwatch.go:20 is never closed when making the root absolute fails. That is a resource leak with no effect on the result.
- cmd/rwatch/main.go is not modelled. It holds command-line flags, signal handling and printing.

## Findings

| source | as written | input that shows it | evidently intended | confidence | as-written member | corrected member |
|---|---|---|---|---|---|---|
| rwatch.go:37-49 | The error returned by `filepath.Walk` is discarded, and line 47 re-tests the earlier `err`, which is nil at that point. So construction succeeds even when registering a directory fails and the walk stops early | root "/w" with entries "/w" (directory, Add succeeds) and "/w/sub" (directory, Add fails). The watcher is returned with the set {"/w"}, and "/w/sub" is never watched | return the walk's error, so that construction fails unless every directory was registered | high; not executed | Construction.ConstructionIgnoresWalkFailure | Construction.NewRecursiveWatcherChecked |

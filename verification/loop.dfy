/** The event loop (rwatch.go, `run`): events and source errors are taken
    one at a time, in the order the loop receives them, and each is turned
    into messages. The interleaving of the two input channels is given as
    one merged sequence of inputs. */
module EventLoop {
  import opened Results
  import opened FsOp
  import opened Messages
  import opened Classify

  /** One thing the loop receives: a raw event together with the
      environment's answers for it, or an error from the event source. */
  datatype Input =
    | Raw(event: Event, stat: StatResult, add: Outcome)
    | SourceError(cause: string)

  /** One turn of the loop. */
  function Step(subDirs: set<string>, i: Input): StepResult {
    match i
    case Raw(e, stat, add) => HandleMessage(subDirs, e, stat, add)
    case SourceError(cause) => StepResult(subDirs, [HandleError(cause, "")])
  }

  predicate IsDirCreateInput(i: Input) {
    i.Raw? && IsDirCreate(i.event, i.stat, i.add)
  }

  predicate IsRemoveInput(i: Input) {
    i.Raw? && i.event.op == Remove
  }

  /** The paths of the successful directory creations among `inputs`. */
  function CreatedDirs(inputs: seq<Input>): set<string>
    decreases |inputs|
  {
    if |inputs| == 0 then {}
    else (if IsDirCreateInput(inputs[0]) then {inputs[0].event.name} else {}) + CreatedDirs(inputs[1..])
  }

  /** The paths of the Remove events among `inputs`. */
  function RemovedPaths(inputs: seq<Input>): set<string>
    decreases |inputs|
  {
    if |inputs| == 0 then {}
    else (if IsRemoveInput(inputs[0]) then {inputs[0].event.name} else {}) + RemovedPaths(inputs[1..])
  }

  /** A left-to-right fold of `step` over `inputs`, starting from the
      watched set `subDirs`: each input is handled in the set left by the
      inputs before it, and its messages follow theirs. */
  function Fold(step: (set<string>, Input) -> StepResult, subDirs: set<string>, inputs: seq<Input>): StepResult
    decreases |inputs|
  {
    if |inputs| == 0 then StepResult(subDirs, [])
    else
      var head := step(subDirs, inputs[0]);
      var tail := Fold(step, head.subDirs, inputs[1..]);
      StepResult(tail.subDirs, head.out + tail.out)
  }

  /** Folding over two consecutive stretches of input is folding over the
      first, then over the second from where the first left the set, with
      the outputs concatenated in order. */
  lemma {:induction false} FoldAppend(step: (set<string>, Input) -> StepResult,
                                      subDirs: set<string>, a: seq<Input>, b: seq<Input>)
    ensures var ra := Fold(step, subDirs, a);
            var rb := Fold(step, ra.subDirs, b);
            Fold(step, subDirs, a + b) == StepResult(rb.subDirs, ra.out + rb.out)
    decreases |a|
  {
    if |a| == 0 {
      assert a + b == b;
    } else {
      var head := step(subDirs, a[0]);
      var ab := a + b;
      assert ab[0] == a[0] && ab[1..] == a[1..] + b;
      FoldAppend(step, head.subDirs, a[1..], b);
      var rt := Fold(step, head.subDirs, a[1..]);
      var rb := Fold(step, rt.subDirs, b);
      assert head.out + (rt.out + rb.out) == (head.out + rt.out) + rb.out;
    }
  }

  /** What a run over `inputs` from `subDirs` can have done: every input
      yields at most two messages, the set gains paths only from successful
      directory creations, and loses paths only through Remove events. */
  predicate RunBound(subDirs: set<string>, inputs: seq<Input>, r: StepResult) {
    && |r.out| <= 2 * |inputs|
    && r.subDirs - subDirs <= CreatedDirs(inputs)
    && subDirs - r.subDirs <= RemovedPaths(inputs)
  }

  /** The loop over `inputs`, from the watched set `subDirs`. */
  function Run(subDirs: set<string>, inputs: seq<Input>): (r: StepResult)
    ensures RunBound(subDirs, inputs, r)
  {
    RunBounds(subDirs, inputs);
    Fold(Step, subDirs, inputs)
  }

  lemma {:induction false} RunBounds(subDirs: set<string>, inputs: seq<Input>)
    ensures RunBound(subDirs, inputs, Fold(Step, subDirs, inputs))
    decreases |inputs|
  {
    if |inputs| > 0 {
      var head := Step(subDirs, inputs[0]);
      RunBounds(head.subDirs, inputs[1..]);
      if inputs[0].Raw? && inputs[0].event.name in head.subDirs - subDirs {
        assert IsDirCreateInput(inputs[0]);
      }
      if inputs[0].Raw? && inputs[0].event.name in subDirs - head.subDirs {
        assert IsRemoveInput(inputs[0]);
      }
    }
  }

  /** Running over one input is one turn of the loop. */
  lemma RunOne(subDirs: set<string>, i: Input)
    ensures Run(subDirs, [i]) == Step(subDirs, i)
  {
    var head := Step(subDirs, i);
    assert [i][1..] == [];
    assert Fold(Step, head.subDirs, []) == StepResult(head.subDirs, []);
    assert Fold(Step, subDirs, [i]) == StepResult(head.subDirs, head.out + []);
    assert head.out + [] == head.out;
  }

  /** Running over two consecutive stretches of input is running over the
      first, then over the second, with the outputs in order. */
  lemma RunAppend(subDirs: set<string>, a: seq<Input>, b: seq<Input>)
    ensures var ra := Run(subDirs, a);
            var rb := Run(ra.subDirs, b);
            Run(subDirs, a + b) == StepResult(rb.subDirs, ra.out + rb.out)
  {
    FoldAppend(Step, subDirs, a, b);
  }

  /** Each input's messages follow those of all earlier inputs. */
  lemma RunSnoc(subDirs: set<string>, a: seq<Input>, i: Input)
    ensures var ra := Run(subDirs, a);
            var ri := Step(ra.subDirs, i);
            Run(subDirs, a + [i]) == StepResult(ri.subDirs, ra.out + ri.out)
  {
    RunAppend(subDirs, a, [i]);
    RunOne(Run(subDirs, a).subDirs, i);
  }

  /** A source error is forwarded as exactly one path-less error. */
  lemma SourceErrorForwarded(subDirs: set<string>, cause: string)
    ensures Run(subDirs, [SourceError(cause)]) == StepResult(subDirs, [Error("", cause)])
  {
    RunOne(subDirs, SourceError(cause));
  }

  /** Removing a watched directory twice yields one Deleted message; the
      second removal is silent. */
  lemma RemoveTwice(subDirs: set<string>, p: string, i: Input, j: Input)
    requires p in subDirs
    requires i.Raw? && i.event == Event(p, Remove)
    requires j.Raw? && j.event == Event(p, Remove)
    ensures Run(subDirs, [i, j]) == StepResult(subDirs - {p}, [Deleted(p)])
  {
    RunAppend(subDirs, [i], [j]);
    assert [i] + [j] == [i, j];
    RunOne(subDirs, i);
    RunOne(subDirs - {p}, j);
  }

  /** A directory created and registered while running is watched: its
      later removal is reported. */
  lemma CreateThenRemove(subDirs: set<string>, p: string, j: Input)
    requires p !in subDirs
    requires j.Raw? && j.event == Event(p, Remove)
    ensures var i := Raw(Event(p, Create), StatOk(FileInfo(true)), Pass);
            Run(subDirs, [i, j]) == StepResult(subDirs, [Created(p, FileInfo(true)), Deleted(p)])
  {
    var i := Raw(Event(p, Create), StatOk(FileInfo(true)), Pass);
    RunAppend(subDirs, [i], [j]);
    assert [i] + [j] == [i, j];
    RunOne(subDirs, i);
    RunOne(subDirs + {p}, j);
    assert subDirs + {p} - {p} == subDirs;
  }

  /** Without a successful directory creation, the set never grows. */
  lemma NoCreateNoGrowth(subDirs: set<string>, inputs: seq<Input>)
    requires forall j :: 0 <= j < |inputs| ==> !IsDirCreateInput(inputs[j])
    ensures Run(subDirs, inputs).subDirs <= subDirs
  {
    NoCreatedDirs(inputs);
    var r := Run(subDirs, inputs);
    assert r.subDirs - subDirs == {};
    forall p | p in r.subDirs ensures p in subDirs {
      assert p !in r.subDirs - subDirs;
    }
  }

  lemma {:induction false} NoCreatedDirs(inputs: seq<Input>)
    requires forall j :: 0 <= j < |inputs| ==> !IsDirCreateInput(inputs[j])
    ensures CreatedDirs(inputs) == {}
    decreases |inputs|
  {
    if |inputs| > 0 {
      assert !IsDirCreateInput(inputs[0]);
      NoCreatedDirs(inputs[1..]);
    }
  }
}

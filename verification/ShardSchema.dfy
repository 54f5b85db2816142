/**
 The schema protocol of an address-point shard.  Unlike the reverse index, a shard is rewritten in
 place: the schema goes first and comes back last, measured from the finished files.
 */
module ShardSchema {
  import opened Bytes
  import opened Layouts
  import opened Wrappers

  datatype Part = Points | Cells | Entries | Strings

  const POINT_SIZE: nat := 28
  const CELL_SIZE: nat := 12

  /** A file on disk: the build that last touched it, and whether that build finished it. */
  datatype Blob = Blob(gen: nat, bytes: File, whole: bool)

  /** The build that published it, which the real file does not hold, its layout, and the lengths it measured. */
  datatype Schema = Schema(gen: nat, layout: Layout, lengths: map<Part, nat>)

  datatype Dir = Dir(files: map<Part, Blob>, schema: Option<Schema>)

  datatype Phase =
    | Idle
    | Writing(done: set<Part>)   // the schema is gone, these files are finished
    | Measured(draft: Schema)    // the new schema is written under its temporary name

  type Outputs = map<Part, File>

  /** The shard, the build at work with its layout and the bytes it means to write, and the next build's number. */
  datatype State = State(dir: Dir, phase: Phase, gen: nat, layout: Layout, outputs: Outputs, nextGen: nat)

  ghost predicate Total<T>(m: map<Part, T>) {
    forall p: Part :: p in m
  }

  // --- The steps of a build ---

  ghost predicate Invalidate(s: State, s': State) {
    && s.phase == Idle && Total(s'.outputs)
    && s' == s.(dir := s.dir.(schema := None), phase := Writing({}), gen := s.nextGen,
                layout := s'.layout, outputs := s'.outputs, nextGen := s.nextGen + 1)
  }

  /** Creates a file, which empties the old one, or writes more of it. */
  ghost predicate Touch(s: State, s': State, p: Part) {
    && s.phase.Writing? && p !in s.phase.done && p in s'.dir.files
    && s' == s.(dir := s.dir.(files := s.dir.files[p := Blob(s.gen, s'.dir.files[p].bytes, false)]))
  }

  ghost predicate Finish(s: State, s': State, p: Part) {
    && s.phase.Writing? && p in s.outputs
    && s' == s.(dir := s.dir.(files := s.dir.files[p := Blob(s.gen, s.outputs[p], true)]),
                phase := Writing(s.phase.done + {p}))
  }

  ghost predicate Measure(s: State, s': State) {
    && s.phase == Writing({Points, Cells, Entries, Strings}) && Total(s.dir.files)
    && s' == s.(phase := Measured(Schema(s.gen, s.layout, map p | p in s.dir.files :: |s.dir.files[p].bytes|)))
  }

  ghost predicate PublishSchema(s: State, s': State) {
    s.phase.Measured? && s' == s.(phase := Idle, dir := s.dir.(schema := Some(s.phase.draft)))
  }

  /** An error or a crash: nothing is cleaned up. */
  ghost predicate Stop(s: State, s': State) {
    s.phase != Idle && s' == s.(phase := Idle)
  }

  ghost predicate Next(s: State, s': State) {
    || Invalidate(s, s') || (exists p :: Touch(s, s', p)) || (exists p :: Finish(s, s', p))
    || Measure(s, s') || PublishSchema(s, s') || Stop(s, s')
  }

  ghost predicate Init(s: State) {
    && s.phase == Idle && Older(s.dir.files, s.nextGen)
    && (s.dir.schema.Some? ==> Describes(s.dir.files, s.dir.schema.value))
  }

  ghost predicate Step(run: seq<State>, i: nat)
    requires 0 < i < |run|
  {
    Next(run[i - 1], run[i])
  }

  ghost predicate IsRun(run: seq<State>) {
    run != [] && Init(run[0]) && forall i :: 0 < i < |run| ==> Step(run, i)
  }

  // --- The reader ---

  datatype Outcome = Absent | Refused | Opened

  predicate LengthMatches(files: map<Part, Blob>, schema: Schema, p: Part) {
    p in files && p in schema.lengths && |files[p].bytes| == schema.lengths[p]
  }

  predicate AllMatch(files: map<Part, Blob>, schema: Schema) {
    && LengthMatches(files, schema, Points) && LengthMatches(files, schema, Cells)
    && LengthMatches(files, schema, Entries) && LengthMatches(files, schema, Strings)
  }

  /** What the reader asks of the contents: whole records, a list, and the empty string first. */
  predicate WellFormed(points: File, cells: File, entries: File, strings: File) {
    && points != [] && |points| % POINT_SIZE == 0 && cells != [] && |cells| % CELL_SIZE == 0
    && |entries| >= 2 && strings != [] && strings[0] == 0
  }

  predicate FilesWellFormed(files: map<Part, Blob>)
    requires Points in files && Cells in files && Entries in files && Strings in files
  {
    WellFormed(files[Points].bytes, files[Cells].bytes, files[Entries].bytes, files[Strings].bytes)
  }

  /** What a reader that expects this layout opens. */
  ghost predicate Openable(dir: Dir, layout: Layout) {
    && dir.schema.Some? && dir.schema.value.layout == layout
    && AllMatch(dir.files, dir.schema.value) && FilesWellFormed(dir.files)
  }

  /** `open_labeled`: a shard that is partly there is an error, never taken for absent. */
  method Open(dir: Dir, layout: Layout) returns (r: Outcome)
    ensures r == Absent <==> dir.files == map[] && dir.schema == None
    ensures r == Opened <==> Openable(dir, layout)
  {
    if Points !in dir.files && Cells !in dir.files && Entries !in dir.files && Strings !in dir.files {
      forall p: Part ensures p !in dir.files {
        match p case Points => case Cells => case Entries => case Strings =>
      }
      return if dir.schema.Some? then Refused else Absent;
    }
    if dir.schema.None? || dir.schema.value.layout != layout || !AllMatch(dir.files, dir.schema.value) {
      return Refused;
    }
    var points := |dir.files[Points].bytes|;
    if points == 0 || points % POINT_SIZE != 0 {
      return Refused;
    }
    var cells := |dir.files[Cells].bytes|;
    if cells == 0 || cells % CELL_SIZE != 0 {
      return Refused;
    }
    if |dir.files[Entries].bytes| < 2 {
      return Refused;
    }
    var strings := dir.files[Strings].bytes;
    if strings == [] || strings[0] != 0 {
      return Refused;
    }
    return Opened;
  }

  // --- What every step keeps ---

  /** A finished file of build `g`. */
  ghost predicate Whole(files: map<Part, Blob>, g: nat, p: Part) {
    p in files && files[p].whole && files[p].gen == g
  }

  ghost predicate Describes(files: map<Part, Blob>, schema: Schema) {
    forall p :: Whole(files, schema.gen, p) && LengthMatches(files, schema, p)
  }

  ghost predicate Current(s: State, p: Part) {
    p in s.dir.files && p in s.outputs && s.dir.files[p] == Blob(s.gen, s.outputs[p], true)
  }

  ghost predicate Older(files: map<Part, Blob>, gen: nat) {
    forall p :: p in files ==> files[p].gen < gen
  }

  ghost predicate Inv(s: State) {
    && Older(s.dir.files, s.nextGen)
    && (s.dir.schema.Some? ==> Describes(s.dir.files, s.dir.schema.value))
    && (s.phase != Idle ==> s.gen + 1 == s.nextGen && Total(s.outputs) && s.dir.schema == None)
    && (s.phase.Writing? ==> forall p :: p in s.phase.done ==> Current(s, p))
    && (s.phase.Measured? ==>
          && s.phase.draft.gen == s.gen && s.phase.draft.layout == s.layout
          && Describes(s.dir.files, s.phase.draft) && forall p :: Current(s, p))
  }

  lemma MeasureKeepsInv(s: State, s': State)
    requires Inv(s) && Measure(s, s')
    ensures Inv(s')
  {
    forall p: Part
      ensures Current(s', p) && Whole(s'.dir.files, s.gen, p) && LengthMatches(s'.dir.files, s'.phase.draft, p)
    {
      assert p in s.phase.done by {
        match p case Points => case Cells => case Entries => case Strings =>
      }
      assert Current(s, p);
    }
  }

  lemma NextKeepsInv(s: State, s': State)
    requires Inv(s) && Next(s, s')
    ensures Inv(s')
  {
    if p :| Touch(s, s', p) {
      forall q | q in s'.phase.done ensures Current(s', q) {
        assert Current(s, q);
      }
    } else if p :| Finish(s, s', p) {
      forall q | q in s'.phase.done ensures Current(s', q) {
        if q != p { assert Current(s, q); }
      }
    } else if Measure(s, s') {
      MeasureKeepsInv(s, s');
    }
  }

  lemma {:induction false} RunInv(run: seq<State>, i: nat)
    requires IsRun(run) && i < |run|
    ensures Inv(run[i])
    decreases i
  {
    if i > 0 {
      RunInv(run, i - 1);
      assert Step(run, i);
      NextKeepsInv(run[i - 1], run[i]);
    }
  }

  /**
   Wherever a run stands, a shard that opens holds the finished files of the one build that wrote
   its schema; and while a build is at work it does not open.
   */
  lemma OpenedIsOneGeneration(run: seq<State>, i: nat, layout: Layout)
    requires IsRun(run) && i < |run| && Openable(run[i].dir, layout)
    ensures run[i].phase == Idle
    ensures forall p :: Whole(run[i].dir.files, run[i].dir.schema.value.gen, p)
  {
    RunInv(run, i);
  }

  /**
   A build that published opens exactly if its layout is the reader's and what it wrote is
   well-formed; an empty shard is not.
   */
  lemma PublishedOpens(run: seq<State>, i: nat, layout: Layout)
    requires IsRun(run) && 0 < i < |run| && PublishSchema(run[i - 1], run[i])
    ensures Total(run[i].outputs)
    ensures var out := run[i].outputs;
            Openable(run[i].dir, layout) <==>
            run[i].layout == layout && WellFormed(out[Points], out[Cells], out[Entries], out[Strings])
  {
    RunInv(run, i - 1);
    RunInv(run, i);
    var s := run[i - 1];
    assert Current(s, Points) && Current(s, Cells) && Current(s, Entries) && Current(s, Strings);
    var files, schema := run[i].dir.files, run[i].dir.schema.value;
    assert LengthMatches(files, schema, Points) && LengthMatches(files, schema, Cells);
    assert LengthMatches(files, schema, Entries) && LengthMatches(files, schema, Strings);
  }

  // --- A failed build is noticed ---

  lemma {:induction false} NoSchemaYet(run: seq<State>, i: nat, j: nat)
    requires IsRun(run) && 0 < i <= j < |run| && Invalidate(run[i - 1], run[i])
    requires forall k :: i < k <= j ==> !PublishSchema(run[k - 1], run[k])
    ensures run[j].dir.schema == None
    decreases j
  {
    if i < j {
      NoSchemaYet(run, i, j - 1);
      assert Step(run, j);
    }
  }

  /** Once a build has begun, its shard does not open again before some build publishes. */
  lemma ClosedUntilPublished(run: seq<State>, i: nat, j: nat, layout: Layout)
    requires IsRun(run) && 0 < i <= j < |run| && Invalidate(run[i - 1], run[i])
    requires forall k :: i < k <= j ==> !PublishSchema(run[k - 1], run[k])
    ensures !Openable(run[j].dir, layout)
  {
    NoSchemaYet(run, i, j);
  }

  // --- Rewriting in place ---

  /** Step `k` empties file `p` or writes into it. */
  ghost predicate Writes(run: seq<State>, k: nat, p: Part)
    requires 0 < k < |run|
  {
    Touch(run[k - 1], run[k], p) || Finish(run[k - 1], run[k], p)
  }

  /** Some step from state `i` to state `j` writes into file `p`. */
  ghost predicate Rewritten(run: seq<State>, i: nat, j: nat, p: Part)
    requires j < |run|
  {
    exists k :: i < k <= j && Writes(run, k, p)
  }

  lemma RewrittenStep(run: seq<State>, i: nat, j: nat, p: Part)
    requires i < j < |run|
    ensures Rewritten(run, i, j, p) <==> Rewritten(run, i, j - 1, p) || Writes(run, j, p)
  {}

  lemma RewrittenLater(run: seq<State>, i: nat, c: nat, j: nat, p: Part)
    requires i <= c <= j < |run|
    ensures Rewritten(run, i, c, p) ==> Rewritten(run, i, j, p)
  {}

  lemma StepKeepsOrWrites(s: State, s': State, p: Part)
    requires Inv(s) && Next(s, s') && p in s.dir.files
    ensures p in s'.dir.files
    ensures if Touch(s, s', p) || Finish(s, s', p) then s.phase.Writing? && s'.dir.files[p].gen == s.gen
            else s'.dir.files[p] == s.dir.files[p]
    ensures s'.nextGen >= s.nextGen && (s'.phase == Idle || s'.gen == s.gen || s'.gen == s.nextGen)
    ensures s'.phase != Idle && s.phase == Idle ==> s'.gen == s.nextGen
  {}

  /**
   The file under an open shard.  A file that was accepted in state `i` is still the same in state
   `j` if no step has written into it; and if one has, it is a file of a later build.
   */
  lemma {:induction false} KeptUntilRewritten(run: seq<State>, i: nat, j: nat, p: Part)
    requires IsRun(run) && i <= j < |run| && run[i].phase == Idle && p in run[i].dir.files
    ensures p in run[j].dir.files
    ensures if Rewritten(run, i, j, p) then run[i].nextGen <= run[j].dir.files[p].gen
            else run[j].dir.files[p] == run[i].dir.files[p]
    ensures run[j].phase == Idle || run[i].nextGen <= run[j].gen
    ensures run[i].nextGen <= run[j].nextGen
    decreases j
  {
    if i < j {
      KeptUntilRewritten(run, i, j - 1, p);
      RunInv(run, j - 1);
      assert Step(run, j);
      StepKeepsOrWrites(run[j - 1], run[j], p);
      RewrittenStep(run, i, j, p);
    }
  }

  /**
   A load reads the schema in state `i` and measures and maps each file in some later state.  A
   mapped file is of the schema's build exactly if no step has written into it before.
   */
  lemma MappedIsAccepted(run: seq<State>, i: nat, at: Part -> nat)
    requires IsRun(run) && i < |run| && run[i].dir.schema.Some? && forall p :: i <= at(p) < |run|
    ensures forall p :: Whole(run[at(p)].dir.files, run[i].dir.schema.value.gen, p) <==> !Rewritten(run, i, at(p), p)
    ensures forall p :: !Rewritten(run, i, at(p), p) ==> SameFile(run[i].dir.files, run[at(p)].dir.files, p)
  {
    RunInv(run, i);
    forall p
      ensures Whole(run[at(p)].dir.files, run[i].dir.schema.value.gen, p) <==> !Rewritten(run, i, at(p), p)
      ensures !Rewritten(run, i, at(p), p) ==> SameFile(run[i].dir.files, run[at(p)].dir.files, p)
    {
      assert Whole(run[i].dir.files, run[i].dir.schema.value.gen, p);
      KeptUntilRewritten(run, i, at(p), p);
    }
  }

  ghost predicate SameFile(files: map<Part, Blob>, files': map<Part, Blob>, p: Part) {
    p in files && p in files' && files[p] == files'[p]
  }

  /** If the schema in state `j` is that of the same build, the load has met this build's files only. */
  lemma SchemaStillThere(run: seq<State>, i: nat, at: Part -> nat, j: nat)
    requires IsRun(run) && i <= j < |run| && forall p :: i <= at(p) <= j
    requires run[i].dir.schema.Some? && run[j].dir.schema.Some?
    requires run[i].dir.schema.value.gen == run[j].dir.schema.value.gen
    ensures forall p :: SameFile(run[i].dir.files, run[at(p)].dir.files, p)
  {
    MappedIsAccepted(run, i, at);
    var last := (p: Part) => j;
    MappedIsAccepted(run, i, last);
    RunInv(run, j);
    forall p ensures SameFile(run[i].dir.files, run[at(p)].dir.files, p) {
      assert last(p) == j && Whole(run[j].dir.files, run[j].dir.schema.value.gen, p);
      RewrittenLater(run, i, at(p), j, p);
    }
  }

  /**
   That happens: from every state in which a shard opens, two steps of a new build empty its
   points, while the other files are still the accepted ones.
   */
  lemma OpenShardCanBeEmptied(s: State, outputs: Outputs, layout: Layout) returns (run: seq<State>)
    requires Init(s) && Openable(s.dir, layout) && Total(outputs)
    ensures IsRun(run) && run[0] == s
    ensures var files := run[|run| - 1].dir.files;
            && Points in files && files[Points].bytes == [] && s.dir.files[Points].bytes != []
            && forall p :: p != Points ==> SameFile(s.dir.files, files, p)
  {
    var s1 := s.(dir := s.dir.(schema := None), phase := Writing({}), gen := s.nextGen, outputs := outputs,
                 nextGen := s.nextGen + 1);
    var s2 := s1.(dir := s1.dir.(files := s1.dir.files[Points := Blob(s1.gen, [], false)]));
    run := [s, s1, s2];
    assert Invalidate(s, s1) && Touch(s1, s2, Points);
    assert Step(run, 1) && Step(run, 2);
    forall p | p != Points ensures SameFile(s.dir.files, s2.dir.files, p) {
      assert LengthMatches(s.dir.files, s.dir.schema.value, p);
    }
  }
}

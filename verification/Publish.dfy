/**
 The publish protocol of the reverse index.  A build writes every file beside its live name,
 removes the manifest, renames the files one by one and publishes a new manifest last.  It may
 fail or crash between any two steps; the server accepts a directory by its manifest.
 */
module Publish {
  import opened Bytes
  import opened Layouts
  import opened Sequences
  import opened Wrappers

  /** The files of the index. */
  datatype Name =
    | StreetEntries | AddrEntries | InterpEntries | GeoCells | AdminCells | AdminEntries
    | PlaceCells | PlaceEntries | PlacePoints | PoiCells | PoiEntries | PoiPoints | I18nNames
    | StreetWays | StreetNodes | AddrPoints | InterpWays | InterpNodes | AdminPolygons
    | AdminVertices | Strings

  /** The order in which a build writes the files and later renames them. */
  const WRITE_ORDER: seq<Name> := [
    StreetEntries, AddrEntries, InterpEntries, GeoCells, AdminCells, AdminEntries,
    PlaceCells, PlaceEntries, PlacePoints, PoiCells, PoiEntries, PoiPoints, I18nNames,
    StreetWays, StreetNodes, AddrPoints, InterpWays, InterpNodes, AdminPolygons,
    AdminVertices, Strings
  ]

  /** The files a manifest lists and the server checks, in its own order. */
  const CHECKED: seq<Name> := [
    AddrEntries, AddrPoints, AdminCells, AdminEntries, AdminPolygons, AdminVertices, GeoCells,
    I18nNames, InterpEntries, InterpNodes, InterpWays, PlaceCells, PlaceEntries, PlacePoints,
    PoiCells, PoiEntries, PoiPoints, StreetEntries, StreetNodes, StreetWays, Strings
  ]

  /** The position of a file in `WRITE_ORDER`. */
  function Position(n: Name): nat {
    match n
    case StreetEntries => 0 case AddrEntries => 1 case InterpEntries => 2 case GeoCells => 3
    case AdminCells => 4 case AdminEntries => 5 case PlaceCells => 6 case PlaceEntries => 7
    case PlacePoints => 8 case PoiCells => 9 case PoiEntries => 10 case PoiPoints => 11
    case I18nNames => 12 case StreetWays => 13 case StreetNodes => 14 case AddrPoints => 15
    case InterpWays => 16 case InterpNodes => 17 case AdminPolygons => 18
    case AdminVertices => 19 case Strings => 20
  }

  /** Every file is written and checked. */
  lemma EveryFile(n: Name)
    ensures n in WRITE_ORDER && n in CHECKED
  {
    match n
    case StreetEntries => assert WRITE_ORDER[0] == CHECKED[17] == n;
    case AddrEntries => assert WRITE_ORDER[1] == CHECKED[0] == n;
    case InterpEntries => assert WRITE_ORDER[2] == CHECKED[8] == n;
    case GeoCells => assert WRITE_ORDER[3] == CHECKED[6] == n;
    case AdminCells => assert WRITE_ORDER[4] == CHECKED[2] == n;
    case AdminEntries => assert WRITE_ORDER[5] == CHECKED[3] == n;
    case PlaceCells => assert WRITE_ORDER[6] == CHECKED[11] == n;
    case PlaceEntries => assert WRITE_ORDER[7] == CHECKED[12] == n;
    case PlacePoints => assert WRITE_ORDER[8] == CHECKED[13] == n;
    case PoiCells => assert WRITE_ORDER[9] == CHECKED[14] == n;
    case PoiEntries => assert WRITE_ORDER[10] == CHECKED[15] == n;
    case PoiPoints => assert WRITE_ORDER[11] == CHECKED[16] == n;
    case I18nNames => assert WRITE_ORDER[12] == CHECKED[7] == n;
    case StreetWays => assert WRITE_ORDER[13] == CHECKED[19] == n;
    case StreetNodes => assert WRITE_ORDER[14] == CHECKED[18] == n;
    case AddrPoints => assert WRITE_ORDER[15] == CHECKED[1] == n;
    case InterpWays => assert WRITE_ORDER[16] == CHECKED[10] == n;
    case InterpNodes => assert WRITE_ORDER[17] == CHECKED[9] == n;
    case AdminPolygons => assert WRITE_ORDER[18] == CHECKED[4] == n;
    case AdminVertices => assert WRITE_ORDER[19] == CHECKED[5] == n;
    case Strings => assert WRITE_ORDER[20] == CHECKED[20] == n;
  }

  lemma EachFileOnce()
    ensures Distinct(WRITE_ORDER)
  {
    forall i | 0 <= i < |WRITE_ORDER| ensures Position(WRITE_ORDER[i]) == i {}
  }

  /** A file as it stands on disk: the build that wrote it, and whether it got to the end. */
  datatype Blob = Blob(gen: nat, bytes: File, whole: bool)

  /** When a manifest was written, and by which program from which sources. */
  datatype About = About(builtAt: int, provenance: string)

  /**
   The build that wrote it, which is not in the real file; what it tells about itself, its layout,
   and the lengths it recorded.  The counts of records it also holds follow from the last two.
   */
  datatype Manifest = Manifest(gen: nat, about: About, layout: Layout, lengths: map<Name, nat>)

  /** One directory: the live files, the files being written, and the manifest with its own draft. */
  datatype Dir = Dir(live: map<Name, Blob>, tmp: map<Name, Blob>, manifest: Option<Manifest>, draft: Option<Manifest>)

  datatype Phase =
    | Idle
    | Writing(todo: seq<Name>)     // these files are left to write, the first may be half written
    | Committing(todo: seq<Name>)  // the manifest is gone, these files are left to rename
    | Drafting                     // all files are renamed, the new manifest is being written
    | Ready                        // the new manifest is written under its draft name

  type Outputs = map<Name, File>

  /** The directory, the build at work with its layout and the bytes it means to write, and the next build's number. */
  datatype State = State(dir: Dir, phase: Phase, gen: nat, layout: Layout, outputs: Outputs, nextGen: nat)

  ghost predicate Total<T>(files: map<Name, T>) {
    forall n: Name :: n in files
  }

  // --- The steps of a build ---

  ghost predicate Start(s: State, s': State) {
    && s.phase == Idle && Total(s'.outputs)
    && s' == s.(phase := Writing(WRITE_ORDER), gen := s.nextGen, layout := s'.layout, outputs := s'.outputs,
                nextGen := s.nextGen + 1)
  }

  /** Opens the next file, truncating a leftover, and writes some of it. */
  ghost predicate WritePart(s: State, s': State) {
    && s.phase.Writing? && s.phase.todo != [] && s.phase.todo[0] in s'.dir.tmp
    && var n := s.phase.todo[0];
       s' == s.(dir := s.dir.(tmp := s.dir.tmp[n := Blob(s.gen, s'.dir.tmp[n].bytes, false)]))
  }

  /** The next file is written and closed, and `blob` is what is then on disk. */
  ghost predicate Closes(s: State, s': State, blob: Blob) {
    && s.phase.Writing? && s.phase.todo != [] && s.phase.todo[0] in s.outputs
    && s' == s.(dir := s.dir.(tmp := s.dir.tmp[s.phase.todo[0] := blob]), phase := Writing(s.phase.todo[1..]))
  }

  ghost predicate WriteFile(s: State, s': State) {
    && s.phase.Writing? && s.phase.todo != [] && s.phase.todo[0] in s.outputs
    && Closes(s, s', Blob(s.gen, s.outputs[s.phase.todo[0]], true))
  }

  /** The stream's destructor cannot write out the end of the file, and cannot report it. */
  ghost predicate LoseFlush(s: State, s': State) {
    && s.phase.Writing? && s.phase.todo != [] && s.phase.todo[0] in s.outputs && s.phase.todo[0] in s'.dir.tmp
    && var bytes := s'.dir.tmp[s.phase.todo[0]].bytes;
       bytes < s.outputs[s.phase.todo[0]] && Closes(s, s', Blob(s.gen, bytes, false))
  }

  ghost predicate RemoveManifest(s: State, s': State) {
    s.phase == Writing([]) && s' == s.(dir := s.dir.(manifest := None), phase := Committing(WRITE_ORDER))
  }

  ghost predicate RenameFile(s: State, s': State) {
    && s.phase.Committing? && s.phase.todo != [] && s.phase.todo[0] in s.dir.tmp
    && var n := s.phase.todo[0];
       s' == s.(dir := s.dir.(live := s.dir.live[n := s.dir.tmp[n]], tmp := s.dir.tmp - {n}),
                phase := Committing(s.phase.todo[1..]))
  }

  ghost predicate StartDraft(s: State, s': State) {
    s.phase == Committing([]) && s' == s.(phase := Drafting)
  }

  /** Records the time, the layout, and the lengths of the files that stand in the directory now. */
  ghost predicate WriteDraft(s: State, s': State) {
    && s.phase == Drafting && Total(s.dir.live) && s'.dir.draft.Some?
    && var lengths := map n | n in CHECKED :: |s.dir.live[n].bytes|;
       s' == s.(phase := Ready,
                dir := s.dir.(draft := Some(Manifest(s.gen, s'.dir.draft.value.about, s.layout, lengths))))
  }

  ghost predicate PublishManifest(s: State, s': State) {
    && s.phase == Ready && s.dir.draft.Some?
    && s' == s.(phase := Idle, dir := s.dir.(manifest := s.dir.draft, draft := None))
  }

  /** An exception ends the build; its destructor removes files that are not live yet, if it can. */
  ghost predicate Rollback(s: State, s': State) {
    && s.phase != Idle && s'.dir.tmp.Keys <= s.dir.tmp.Keys
    && (forall n :: n in s'.dir.tmp ==> s'.dir.tmp[n] == s.dir.tmp[n])
    && s' == s.(phase := Idle, dir := s.dir.(tmp := s'.dir.tmp))
  }

  /** The process dies: nothing is cleaned up. */
  ghost predicate Crash(s: State, s': State) {
    s.phase != Idle && s' == s.(phase := Idle)
  }

  ghost predicate Next(s: State, s': State) {
    || Start(s, s') || WritePart(s, s') || WriteFile(s, s') || LoseFlush(s, s')
    || RemoveManifest(s, s') || RenameFile(s, s') || StartDraft(s, s')
    || WriteDraft(s, s') || PublishManifest(s, s') || Rollback(s, s') || Crash(s, s')
  }

  /** The directory is as an earlier build published it, or holds no manifest; leftovers may lie about. */
  ghost predicate Init(s: State) {
    && s.phase == Idle && Older(s.dir.live, s.nextGen)
    && (s.dir.manifest.Some? ==> Describes(s.dir.live, s.dir.manifest.value))
  }

  ghost predicate Step(run: seq<State>, i: nat)
    requires 0 < i < |run|
  {
    Next(run[i - 1], run[i])
  }

  /** A run: any number of builds one after the other, each going as far as it goes. */
  ghost predicate IsRun(run: seq<State>) {
    run != [] && Init(run[0]) && forall i :: 0 < i < |run| ==> Step(run, i)
  }

  // --- The server ---

  predicate LengthMatches(live: map<Name, Blob>, m: Manifest, n: Name) {
    n in live && n in m.lengths && |live[n].bytes| == m.lengths[n]
  }

  /** What a server that expects this layout accepts. */
  ghost predicate Accepts(dir: Dir, layout: Layout) {
    && dir.manifest.Some? && dir.manifest.value.layout == layout
    && LengthMatches(dir.live, dir.manifest.value, Strings)
    && (forall n :: LengthMatches(dir.live, dir.manifest.value, n))
    && dir.live[Strings].bytes != [] && dir.live[Strings].bytes[0] == 0
  }

  lemma AllMatch(live: map<Name, Blob>, m: Manifest)
    requires forall k :: 0 <= k < |CHECKED| ==> LengthMatches(live, m, CHECKED[k])
    ensures forall n :: LengthMatches(live, m, n)
  {
    forall n ensures LengthMatches(live, m, n) {
      EveryFile(n);
    }
  }

  /** `verify_reverse`: compares layout and lengths with the manifest, and reads the first string byte. */
  method VerifyReverse(dir: Dir, layout: Layout) returns (ok: bool)
    ensures ok <==> Accepts(dir, layout)
  {
    if dir.manifest.None? {
      return false;
    }
    for i := 0 to |CHECKED|
      invariant forall k :: 0 <= k < i ==> LengthMatches(dir.live, dir.manifest.value, CHECKED[k])
    {
      if !LengthMatches(dir.live, dir.manifest.value, CHECKED[i]) {
        return false;
      }
    }
    AllMatch(dir.live, dir.manifest.value);
    if dir.manifest.value.layout != layout {
      return false;
    }
    assert LengthMatches(dir.live, dir.manifest.value, Strings);
    var strings := dir.live[Strings].bytes;
    return strings != [] && strings[0] == 0;
  }

  // --- What every step keeps ---

  /** Every file is live, of the manifest's build and of the length it gives. */
  ghost predicate Describes(live: map<Name, Blob>, m: Manifest) {
    forall n :: LengthMatches(live, m, n) && FileOf(live, m.gen, n)
  }

  /** A file of build `g`. */
  ghost predicate FileOf(live: map<Name, Blob>, g: nat, n: Name) {
    n in live && live[n].gen == g
  }

  ghost predicate Older(files: map<Name, Blob>, gen: nat) {
    forall n :: n in files ==> files[n].gen < gen
  }

  /** The file as the build at work left it: as it means it, or without its end. */
  ghost predicate Current(s: State, files: map<Name, Blob>, n: Name)
    requires Total(s.outputs)
  {
    n in files && Written(files[n], s.gen, s.outputs[n])
  }

  /** What closing a file can leave of `bytes`. */
  ghost predicate Written(blob: Blob, g: nat, bytes: File) {
    blob.gen == g && blob.bytes <= bytes && (blob.whole <==> blob.bytes == bytes)
  }

  /** While files are written: this one is, if its turn has passed. */
  ghost predicate Staged(s: State, n: Name)
    requires s.phase.Writing? && Total(s.outputs)
  {
    n in s.phase.todo || Current(s, s.dir.tmp, n)
  }

  /** While files are renamed: this one is live, or waits to replace an older one. */
  ghost predicate Placed(s: State, n: Name)
    requires s.phase.Committing? && Total(s.outputs)
  {
    if n in s.phase.todo then Current(s, s.dir.tmp, n) && (n in s.dir.live ==> s.dir.live[n].gen < s.gen)
    else Current(s, s.dir.live, n)
  }

  ghost predicate WritingInv(s: State)
    requires s.phase.Writing? && Total(s.outputs)
  {
    Distinct(s.phase.todo) && Older(s.dir.live, s.gen) && forall n :: Staged(s, n)
  }

  ghost predicate CommittingInv(s: State)
    requires s.phase.Committing? && Total(s.outputs)
  {
    Distinct(s.phase.todo) && s.dir.manifest == None && forall n :: Placed(s, n)
  }

  ghost predicate RenamedInv(s: State)
    requires Total(s.outputs)
  {
    s.dir.manifest == None && forall n :: Current(s, s.dir.live, n)
  }

  ghost predicate Inv(s: State) {
    && Older(s.dir.live, s.nextGen)
    && (s.dir.manifest.Some? ==> Describes(s.dir.live, s.dir.manifest.value))
    && (s.phase != Idle ==> s.gen + 1 == s.nextGen && Total(s.outputs))
    && (s.phase.Writing? ==> WritingInv(s))
    && (s.phase.Committing? ==> CommittingInv(s))
    && (s.phase.Drafting? || s.phase.Ready? ==> RenamedInv(s))
    && (s.phase.Ready? ==>
          && s.dir.draft.Some? && s.dir.draft.value.gen == s.gen && s.dir.draft.value.layout == s.layout
          && Describes(s.dir.live, s.dir.draft.value))
  }

  /** Taking the first name off a repetition-free list removes exactly that name. */
  lemma FirstTaken(todo: seq<Name>, m: Name)
    requires Distinct(todo) && todo != []
    ensures Distinct(todo[1..]) && (m in todo[1..] <==> m in todo && m != todo[0])
  {
    assert todo == [todo[0]] + todo[1..];
  }

  lemma StartKeepsInv(s: State, s': State)
    requires Inv(s) && Start(s, s')
    ensures Inv(s')
  {
    EachFileOnce();
    forall m ensures Staged(s', m) {
      EveryFile(m);
    }
  }

  lemma PartKeepsInv(s: State, s': State)
    requires Inv(s) && WritePart(s, s')
    ensures Inv(s')
  {
    forall m ensures Staged(s', m) {
      assert Staged(s, m);
    }
  }

  lemma WriteKeepsInv(s: State, s': State)
    requires Inv(s) && (WriteFile(s, s') || LoseFlush(s, s'))
    ensures Inv(s')
  {
    forall m ensures Staged(s', m) && Distinct(s'.phase.todo) {
      FirstTaken(s.phase.todo, m);
      assert Staged(s, m);
    }
  }

  lemma RemovalKeepsInv(s: State, s': State)
    requires Inv(s) && RemoveManifest(s, s')
    ensures Inv(s')
  {
    EachFileOnce();
    forall m ensures Placed(s', m) {
      EveryFile(m);
      assert Staged(s, m);
    }
  }

  lemma RenameKeepsInv(s: State, s': State)
    requires Inv(s) && RenameFile(s, s')
    ensures Inv(s')
  {
    assert Placed(s, s.phase.todo[0]);
    forall m ensures Placed(s', m) && Distinct(s'.phase.todo) {
      FirstTaken(s.phase.todo, m);
      assert Placed(s, m);
    }
  }

  lemma DraftStartKeepsInv(s: State, s': State)
    requires Inv(s) && StartDraft(s, s')
    ensures Inv(s')
  {
    forall m ensures Current(s', s'.dir.live, m) {
      assert Placed(s, m);
    }
  }

  lemma DraftKeepsInv(s: State, s': State)
    requires Inv(s) && WriteDraft(s, s')
    ensures Inv(s')
  {
    forall n ensures n in CHECKED {
      EveryFile(n);
    }
    var m := s'.dir.draft.value;
    forall n ensures LengthMatches(s.dir.live, m, n) && FileOf(s.dir.live, s.gen, n) && Current(s', s.dir.live, n) {
      assert Current(s, s.dir.live, n);
    }
  }

  lemma NextKeepsInv(s: State, s': State)
    requires Inv(s) && Next(s, s')
    ensures Inv(s')
  {
    if Start(s, s') {
      StartKeepsInv(s, s');
    } else if WritePart(s, s') {
      PartKeepsInv(s, s');
    } else if WriteFile(s, s') || LoseFlush(s, s') {
      WriteKeepsInv(s, s');
    } else if RemoveManifest(s, s') {
      RemovalKeepsInv(s, s');
    } else if RenameFile(s, s') {
      RenameKeepsInv(s, s');
    } else if StartDraft(s, s') {
      DraftStartKeepsInv(s, s');
    } else if WriteDraft(s, s') {
      DraftKeepsInv(s, s');
    }
  }

  /** Every state of every run keeps the invariant. */
  lemma {:induction false} RunInv(run: seq<State>, i: nat)
    requires IsRun(run) && i < |run|
    ensures Inv(run[i])
  {
    if i > 0 {
      RunInv(run, i - 1);
      assert Step(run, i);
      NextKeepsInv(run[i - 1], run[i]);
    }
  }

  // --- Loading between two steps ---

  /** All files come from build `g`. */
  ghost predicate OneGeneration(live: map<Name, Blob>, g: nat) {
    forall n :: FileOf(live, g, n)
  }

  /**
   Publish safety.  Wherever a run stands, a directory that is accepted holds the files of the one
   build that wrote its manifest; and while files are being renamed none is accepted.
   */
  lemma AcceptedIsOneGeneration(run: seq<State>, i: nat, layout: Layout)
    requires IsRun(run) && i < |run|
    ensures Accepts(run[i].dir, layout) ==> OneGeneration(run[i].dir.live, run[i].dir.manifest.value.gen)
    ensures run[i].phase.Committing? || run[i].phase.Drafting? || run[i].phase.Ready? ==>
              !Accepts(run[i].dir, layout)
  {
    RunInv(run, i);
  }

  /**
   A build that publishes is accepted exactly if its layout is the server's, its string pool starts
   with the empty string, and that byte reached the disk.
   */
  lemma PublishedIsAccepted(run: seq<State>, i: nat, layout: Layout)
    requires IsRun(run) && 0 < i < |run| && PublishManifest(run[i - 1], run[i])
    ensures Total(run[i].outputs) && OneGeneration(run[i].dir.live, run[i].gen)
    ensures forall n :: Current(run[i], run[i].dir.live, n)
    ensures Strings in run[i].dir.live
    ensures Accepts(run[i].dir, layout) <==>
            && run[i].layout == layout && run[i].dir.live[Strings].bytes != []
            && run[i].outputs[Strings] != [] && run[i].outputs[Strings][0] == 0
  {
    RunInv(run, i - 1);
    RunInv(run, i);
    var live := run[i].dir.live;
    forall n ensures Current(run[i], live, n) && FileOf(live, run[i].gen, n) {
      assert Current(run[i - 1], live, n);
    }
    assert Current(run[i], live, Strings);
  }

  /** A build that ends before it removed the manifest leaves the live directory as it was. */
  lemma {:induction false} EarlyFailureIsHarmless(run: seq<State>, i: nat, j: nat)
    requires IsRun(run) && i <= j < |run|
    requires forall k :: i <= k <= j ==> run[k].phase.Idle? || run[k].phase.Writing?
    ensures run[j].dir.live == run[i].dir.live && run[j].dir.manifest == run[i].dir.manifest
    decreases j
  {
    if i < j {
      EarlyFailureIsHarmless(run, i, j - 1);
      assert Step(run, j);
    }
  }

  // --- Loading across steps ---

  /** A step leaves a live file alone, or replaces it by one of a later build. */
  ghost predicate Renewed(s: State, s': State, n: Name) {
    n in s.dir.live ==>
      n in s'.dir.live && (s'.dir.live[n] == s.dir.live[n] || s.dir.live[n].gen < s'.dir.live[n].gen)
  }

  lemma StepRenews(s: State, s': State, n: Name)
    requires Inv(s) && Next(s, s')
    ensures Renewed(s, s', n)
  {
    if RenameFile(s, s') {
      assert Placed(s, s.phase.todo[0]);
    }
  }

  lemma {:induction false} RunRenews(run: seq<State>, i: nat, j: nat, n: Name)
    requires IsRun(run) && i <= j < |run|
    ensures Renewed(run[i], run[j], n)
    decreases j
  {
    if i < j {
      RunRenews(run, i, j - 1, n);
      RunInv(run, j - 1);
      assert Step(run, j);
      StepRenews(run[j - 1], run[j], n);
    }
  }

  /** Between two looks at one manifest no file it describes has changed. */
  lemma UnchangedBetween(run: seq<State>, i: nat, c: nat, j: nat, n: Name)
    requires IsRun(run) && i <= c <= j < |run|
    requires run[i].dir.manifest.Some? && run[j].dir.manifest.Some?
    requires run[i].dir.manifest.value.gen == run[j].dir.manifest.value.gen
    ensures n in run[c].dir.live && n in run[i].dir.live && run[c].dir.live[n] == run[i].dir.live[n]
    ensures FileOf(run[c].dir.live, run[i].dir.manifest.value.gen, n)
  {
    RunInv(run, i);
    RunInv(run, j);
    assert FileOf(run[i].dir.live, run[i].dir.manifest.value.gen, n);
    assert FileOf(run[j].dir.live, run[j].dir.manifest.value.gen, n);
    RunRenews(run, i, c, n);
    RunRenews(run, c, j, n);
  }

  ghost predicate SameFile(live: map<Name, Blob>, live': map<Name, Blob>, n: Name) {
    n in live && n in live' && live[n] == live'[n]
  }

  /** Once build `g` has published, only later builds are at work. */
  lemma {:induction false} WorkIsLater(run: seq<State>, i: nat, k: nat)
    requires IsRun(run) && i <= k < |run| && run[i].dir.manifest.Some?
    ensures run[k].phase == Idle || run[i].dir.manifest.value.gen < run[k].gen
    ensures run[i].dir.manifest.value.gen < run[k].nextGen
    decreases k
  {
    RunInv(run, k);
    if i < k {
      WorkIsLater(run, i, k - 1);
      assert Step(run, k);
    } else {
      assert FileOf(run[i].dir.live, run[i].dir.manifest.value.gen, Strings);
    }
  }

  /** What a reader can compare of two manifests: all but the number of the build. */
  predicate LooksLike(m: Manifest, m': Manifest) {
    m.(gen := m'.gen) == m'
  }

  /** Step `k` publishes a manifest that looks like `m`. */
  ghost predicate PublishesLike(run: seq<State>, k: nat, m: Manifest)
    requires 0 < k < |run|
  {
    PublishManifest(run[k - 1], run[k]) && LooksLike(run[k].dir.manifest.value, m)
  }

  /** A manifest is the one of an earlier state, or some step has published it since. */
  lemma {:induction false} ManifestOrigin(run: seq<State>, i: nat, j: nat)
    requires IsRun(run) && i <= j < |run| && run[j].dir.manifest.Some?
    ensures run[j].dir.manifest == run[i].dir.manifest
            || exists k :: i < k <= j && PublishesLike(run, k, run[j].dir.manifest.value)
    decreases j
  {
    if i < j {
      assert Step(run, j);
      if PublishManifest(run[j - 1], run[j]) {
        assert PublishesLike(run, j, run[j].dir.manifest.value);
      } else {
        ManifestOrigin(run, i, j - 1);
      }
    }
  }

  /** A step that publishes has put the files of a later build in place. */
  lemma PublishingReplaces(run: seq<State>, i: nat, k: nat)
    requires IsRun(run) && i < k < |run| && run[i].dir.manifest.Some? && PublishManifest(run[k - 1], run[k])
    ensures !SameFile(run[i].dir.live, run[k].dir.live, Strings)
  {
    RunInv(run, i);
    RunInv(run, k - 1);
    WorkIsLater(run, i, k - 1);
    assert Current(run[k - 1], run[k - 1].dir.live, Strings);
    assert FileOf(run[i].dir.live, run[i].dir.manifest.value.gen, Strings);
  }

  /**
   A load reads the manifest in state `i`, checks and maps each file in some state from there to
   `j`, and then looks again.  If the manifest looks the same, all files of every such load are the
   accepted ones, exactly unless a build has published a manifest in between that looks like it.
   */
  lemma SecondLook(run: seq<State>, i: nat, j: nat)
    requires IsRun(run) && i <= j < |run| && run[i].dir.manifest.Some? && run[j].dir.manifest.Some?
    requires LooksLike(run[i].dir.manifest.value, run[j].dir.manifest.value)
    ensures (forall c, n :: i <= c <= j ==> SameFile(run[i].dir.live, run[c].dir.live, n)) <==>
            forall k :: i < k <= j ==> !PublishesLike(run, k, run[i].dir.manifest.value)
  {
    var m, m' := run[i].dir.manifest.value, run[j].dir.manifest.value;
    forall k | i < k <= j ensures PublishesLike(run, k, m) <==> PublishesLike(run, k, m') {}
    if k: nat :| i < k <= j && PublishesLike(run, k, m) {
      PublishingReplaces(run, i, k);
    } else {
      ManifestOrigin(run, i, j);
      forall c, n | i <= c <= j ensures SameFile(run[i].dir.live, run[c].dir.live, n) {
        UnchangedBetween(run, i, c, j, n);
      }
    }
  }

  /** A build other than `g` stands at a point where it has already renamed file `n`. */
  ghost predicate Replaced(s: State, g: nat, n: Name) {
    && s.gen != g
    && ((s.phase.Committing? && n !in s.phase.todo) || s.phase.Drafting? || s.phase.Ready?)
  }

  lemma ReplacedIsNewer(s: State, g: nat, n: Name)
    requires Inv(s) && Replaced(s, g, n)
    ensures n in s.dir.live && s.dir.live[n].gen != g && s.dir.live[n].gen == s.gen
  {
    if s.phase.Committing? {
      assert Placed(s, n);
    } else {
      assert Current(s, s.dir.live, n);
    }
  }

  /** One more step keeps the file `old` of build `g` live exactly if it does not replace it. */
  lemma KeptUnlessReplaced(s: State, s': State, held: Blob, n: Name)
    requires Inv(s) && Inv(s') && Next(s, s') && n in s.dir.live && held.gen <= s.dir.live[n].gen
    ensures n in s'.dir.live
    ensures s.dir.live[n] == held ==> (s'.dir.live[n] == held <==> !Replaced(s', held.gen, n))
    ensures s.dir.live[n] != held ==> s'.dir.live[n] == s.dir.live[n] || held.gen < s'.dir.live[n].gen
  {
    StepRenews(s, s', n);
    if Replaced(s', held.gen, n) {
      ReplacedIsNewer(s', held.gen, n);
    } else if RenameFile(s, s') {
      assert Placed(s, s.phase.todo[0]);
    }
  }

  ghost predicate NeverReplaced(run: seq<State>, i: nat, j: nat, g: nat, n: Name)
    requires j < |run|
  {
    forall k :: i < k <= j ==> !Replaced(run[k], g, n)
  }

  lemma NeverReplacedStep(run: seq<State>, i: nat, j: nat, g: nat, n: Name)
    requires i < j < |run|
    ensures NeverReplaced(run, i, j, g, n) <==> NeverReplaced(run, i, j - 1, g, n) && !Replaced(run[j], g, n)
  {}

  lemma RunStepKeeps(run: seq<State>, j: nat, n: Name, b: Blob)
    requires IsRun(run) && 0 < j < |run| && n in run[j - 1].dir.live && b.gen <= run[j - 1].dir.live[n].gen
    ensures n in run[j].dir.live
    ensures run[j - 1].dir.live[n] == b ==> (run[j].dir.live[n] == b <==> !Replaced(run[j], b.gen, n))
    ensures run[j].dir.live[n] == run[j - 1].dir.live[n] || b.gen < run[j].dir.live[n].gen
    ensures Renewed(run[j - 1], run[j], n)
  {
    RunInv(run, j - 1);
    RunInv(run, j);
    assert Step(run, j);
    KeptUnlessReplaced(run[j - 1], run[j], b, n);
    StepRenews(run[j - 1], run[j], n);
  }

  lemma {:induction false} KeptExactly(run: seq<State>, i: nat, j: nat, n: Name, b: Blob)
    requires IsRun(run) && i <= j < |run| && n in run[i].dir.live && run[i].dir.live[n] == b
    ensures n in run[j].dir.live
    ensures run[j].dir.live[n] == b <==> NeverReplaced(run, i, j, b.gen, n)
    ensures run[j].dir.live[n] == b || b.gen < run[j].dir.live[n].gen
    decreases j
  {
    if i < j {
      KeptExactly(run, i, j - 1, n, b);
      NeverReplacedStep(run, i, j, b.gen, n);
      RunStepKeeps(run, j, n, b);
    }
  }

  /**
   Without that second look a load may mix builds.  It reads the manifest in state `i` and each file
   in some later state; that file is of the manifest's build exactly if no build had replaced it.
   */
  lemma MappedIsAccepted(run: seq<State>, i: nat, at: Name -> nat)
    requires IsRun(run) && i < |run| && run[i].dir.manifest.Some? && forall n :: i <= at(n) < |run|
    ensures var g := run[i].dir.manifest.value.gen;
            forall n :: n in run[at(n)].dir.live
                        && (FileOf(run[at(n)].dir.live, g, n) <==> NeverReplaced(run, i, at(n), g, n))
  {
    RunInv(run, i);
    var g := run[i].dir.manifest.value.gen;
    forall n
      ensures n in run[at(n)].dir.live && (FileOf(run[at(n)].dir.live, g, n) <==> NeverReplaced(run, i, at(n), g, n))
    {
      assert FileOf(run[i].dir.live, g, n);
      KeptExactly(run, i, at(n), n, run[i].dir.live[n]);
    }
  }

  /** The string pool is there and starts with the empty string. */
  predicate StartsEmpty(dir: Dir) {
    Strings in dir.live && dir.live[Strings].bytes != [] && dir.live[Strings].bytes[0] == 0
  }

  /**
   The check as it runs beside a build: the manifest is read in state `i`, file `n` is measured in
   state `at(n)`, and the string pool is read in state `last`.
   */
  ghost predicate AcceptsAcross(run: seq<State>, i: nat, at: Name -> nat, last: nat, layout: Layout)
    requires i < |run| && last < |run| && forall n :: at(n) < |run|
  {
    && run[i].dir.manifest.Some? && run[i].dir.manifest.value.layout == layout
    && (forall n :: LengthMatches(run[at(n)].dir.live, run[i].dir.manifest.value, n))
    && StartsEmpty(run[last].dir)
  }

  /** If no file had been replaced when it was looked at, that is the check of state `i`. */
  lemma AcceptsAcrossExactly(run: seq<State>, i: nat, at: Name -> nat, last: nat, layout: Layout)
    requires IsRun(run) && i <= last < |run| && run[i].dir.manifest.Some? && forall n :: i <= at(n) < |run|
    requires forall n :: NeverReplaced(run, i, at(n), run[i].dir.manifest.value.gen, n)
    requires NeverReplaced(run, i, last, run[i].dir.manifest.value.gen, Strings)
    ensures AcceptsAcross(run, i, at, last, layout) <==> Accepts(run[i].dir, layout)
  {
    RunInv(run, i);
    var m := run[i].dir.manifest.value;
    forall n ensures LengthMatches(run[at(n)].dir.live, m, n) <==> LengthMatches(run[i].dir.live, m, n) {
      assert FileOf(run[i].dir.live, m.gen, n);
      assert NeverReplaced(run, i, at(n), m.gen, n);
      KeptExactly(run, i, at(n), n, run[i].dir.live[n]);
    }
    assert FileOf(run[i].dir.live, m.gen, Strings);
    KeptExactly(run, i, last, Strings, run[i].dir.live[Strings]);
  }

  lemma Extend(run: seq<State>, s: State) returns (longer: seq<State>)
    requires IsRun(run) && Next(run[|run| - 1], s)
    ensures IsRun(longer) && longer == run + [s]
  {
    longer := run + [s];
    forall i | 0 < i < |longer| ensures Step(longer, i) {
      if i < |run| {
        assert Step(run, i);
        assert longer[i - 1] == run[i - 1] && longer[i] == run[i];
      }
    }
  }

  // --- Whole builds ---

  /** `blobs` holds what closing each file of the build at work can leave of it. */
  ghost predicate CanWrite(s: State, blobs: map<Name, Blob>) {
    Total(s.outputs) && Total(blobs) && forall n :: Written(blobs[n], s.gen, s.outputs[n])
  }

  ghost predicate SameBuild(s: State, s': State) {
    s'.gen == s.gen && s'.layout == s.layout && s'.outputs == s.outputs && s'.nextGen == s.nextGen
  }

  /** A build that writes can go on to write all its files, and leave of each what it may. */
  lemma {:induction false} WriteAll(run: seq<State>, blobs: map<Name, Blob>) returns (longer: seq<State>)
    requires IsRun(run) && run[|run| - 1].phase.Writing? && CanWrite(run[|run| - 1], blobs)
    ensures IsRun(longer) && longer[0] == run[0] && |longer| >= |run|
    ensures var s, s' := run[|run| - 1], longer[|longer| - 1];
            && s'.phase == Writing([]) && s'.dir.live == s.dir.live && SameBuild(s, s')
            && forall n :: if n in s.phase.todo then n in s'.dir.tmp && s'.dir.tmp[n] == blobs[n]
                           else n in s.dir.tmp ==> SameFile(s.dir.tmp, s'.dir.tmp, n)
    decreases |run[|run| - 1].phase.todo|
  {
    var s := run[|run| - 1];
    if s.phase.todo == [] {
      longer := run;
    } else {
      var n := s.phase.todo[0];
      var s' := s.(dir := s.dir.(tmp := s.dir.tmp[n := blobs[n]]), phase := Writing(s.phase.todo[1..]));
      assert Closes(s, s', blobs[n]) && (WriteFile(s, s') || LoseFlush(s, s'));
      longer := Extend(run, s');
      longer := WriteAll(longer, blobs);
      RunInv(run, |run| - 1);
      forall m ensures m in s'.phase.todo <==> m in s.phase.todo && m != n {
        FirstTaken(s.phase.todo, m);
      }
    }
  }

  /** A build that renames can go on to rename all. */
  lemma {:induction false} RenameAll(run: seq<State>) returns (longer: seq<State>)
    requires IsRun(run) && run[|run| - 1].phase.Committing?
    ensures IsRun(longer) && longer[0] == run[0]
    ensures var s, s' := run[|run| - 1], longer[|longer| - 1];
            && s'.phase == Committing([]) && SameBuild(s, s')
            && forall n :: if n in s.phase.todo then SameFile(s.dir.tmp, s'.dir.live, n)
                           else n in s.dir.live ==> SameFile(s.dir.live, s'.dir.live, n)
    decreases |run[|run| - 1].phase.todo|
  {
    var s := run[|run| - 1];
    longer := run;
    if s.phase.todo != [] {
      var n := s.phase.todo[0];
      RunInv(run, |run| - 1);
      assert Placed(s, n);
      var s' := s.(dir := s.dir.(live := s.dir.live[n := s.dir.tmp[n]], tmp := s.dir.tmp - {n}),
                   phase := Committing(s.phase.todo[1..]));
      assert RenameFile(s, s');
      longer := Extend(run, s');
      longer := RenameAll(longer);
      forall m ensures m in s'.phase.todo <==> m in s.phase.todo && m != n {
        FirstTaken(s.phase.todo, m);
      }
    }
  }

  /** A build that wrote all files can go on to publish them, at any time. */
  lemma PublishAll(run: seq<State>, about: About) returns (longer: seq<State>)
    requires IsRun(run) && run[|run| - 1].phase == Writing([])
    ensures IsRun(longer) && longer[0] == run[0] && |longer| > 1
    ensures PublishManifest(longer[|longer| - 2], longer[|longer| - 1])
    ensures var s, s' := run[|run| - 1], longer[|longer| - 1];
            && SameBuild(s, s') && s'.dir.manifest.Some? && s'.dir.manifest.value.gen == s.gen
            && s'.dir.manifest.value.about == about && s'.dir.manifest.value.layout == s.layout
            && forall n :: SameFile(s.dir.tmp, s'.dir.live, n)
  {
    var s := run[|run| - 1];
    var s1 := s.(dir := s.dir.(manifest := None), phase := Committing(WRITE_ORDER));
    assert RemoveManifest(s, s1);
    longer := Extend(run, s1);
    longer := RenameAll(longer);
    var s2 := longer[|longer| - 1];
    forall n ensures SameFile(s.dir.tmp, s2.dir.live, n) && n in s2.dir.live {
      EveryFile(n);
    }
    var s3 := s2.(phase := Drafting);
    assert StartDraft(s2, s3);
    longer := Extend(longer, s3);
    longer := WriteManifest(longer, about);
  }

  lemma WriteManifest(run: seq<State>, about: About) returns (longer: seq<State>)
    requires IsRun(run) && run[|run| - 1].phase == Drafting && Total(run[|run| - 1].dir.live)
    ensures IsRun(longer) && longer[0] == run[0] && |longer| > 1
    ensures PublishManifest(longer[|longer| - 2], longer[|longer| - 1])
    ensures var s, s' := run[|run| - 1], longer[|longer| - 1];
            && SameBuild(s, s') && s'.dir.live == s.dir.live && s'.dir.manifest.Some?
            && s'.dir.manifest.value.gen == s.gen && s'.dir.manifest.value.about == about
            && s'.dir.manifest.value.layout == s.layout
  {
    var s := run[|run| - 1];
    var lengths := map n | n in CHECKED :: |s.dir.live[n].bytes|;
    var s1 := s.(phase := Ready, dir := s.dir.(draft := Some(Manifest(s.gen, about, s.layout, lengths))));
    assert WriteDraft(s, s1);
    longer := Extend(run, s1);
    var s2 := s1.(phase := Idle, dir := s1.dir.(manifest := s1.dir.draft, draft := None));
    assert PublishManifest(s1, s2);
    longer := Extend(longer, s2);
  }

  /** From every directory a build can run to its end, and leave of each file what closing it may leave. */
  lemma WholeBuild(s: State, layout: Layout, outputs: Outputs, blobs: map<Name, Blob>, about: About)
    returns (run: seq<State>)
    requires Init(s) && Total(outputs) && Total(blobs)
    requires forall n :: Written(blobs[n], s.nextGen, outputs[n])
    ensures IsRun(run) && run[0] == s && |run| > 1 && PublishManifest(run[|run| - 2], run[|run| - 1])
    ensures var s' := run[|run| - 1];
            && s'.gen == s.nextGen && s'.layout == layout && s'.outputs == outputs
            && s'.dir.manifest.Some? && s'.dir.manifest.value.gen == s.nextGen
            && s'.dir.manifest.value.about == about && s'.dir.manifest.value.layout == layout
            && forall n :: SameFile(blobs, s'.dir.live, n)
  {
    var s1 := s.(phase := Writing(WRITE_ORDER), gen := s.nextGen, layout := layout, outputs := outputs,
                 nextGen := s.nextGen + 1);
    assert IsRun([s]) && Start(s, s1);
    run := Extend([s], s1);
    run := WriteAll(run, blobs);
    var s2 := run[|run| - 1];
    forall n ensures SameFile(blobs, s2.dir.tmp, n) {
      EveryFile(n);
    }
    run := PublishAll(run, about);
    var s3 := run[|run| - 1];
    forall n ensures SameFile(blobs, s3.dir.live, n) {
      assert SameFile(blobs, s2.dir.tmp, n) && SameFile(s2.dir.tmp, s3.dir.live, n);
    }
  }

  /**
   The load is not safe as it is.  From every accepted directory, and whatever the next build
   writes, there is a run to a state in which one file is newer and the others are the accepted ones.
   */
  lemma LoadCanMixBuilds(s: State, outputs: Outputs, layout: Layout) returns (run: seq<State>)
    requires Init(s) && Accepts(s.dir, layout) && Total(outputs)
    ensures IsRun(run) && run[0] == s
    ensures run[|run| - 1].dir.live == s.dir.live[StreetEntries := Blob(s.nextGen, outputs[StreetEntries], true)]
    ensures s.dir.manifest.value.gen < s.nextGen
    ensures forall n :: FileOf(s.dir.live, s.dir.manifest.value.gen, n)
  {
    var s1 := s.(phase := Writing(WRITE_ORDER), gen := s.nextGen, outputs := outputs, nextGen := s.nextGen + 1);
    assert IsRun([s]) && Start(s, s1);
    run := Extend([s], s1);
    var blobs := map n: Name | n in outputs :: Blob(s.nextGen, outputs[n], true);
    run := WriteAll(run, blobs);
    EveryFile(StreetEntries);
    run := RenameFirst(run);
    assert FileOf(s.dir.live, s.dir.manifest.value.gen, GeoCells);
  }

  /** If the newer file has the accepted length, even the check passes there, with the manifest read before. */
  lemma CheckCanPassMixed(s: State, outputs: Outputs, layout: Layout) returns (run: seq<State>)
    requires Init(s) && Accepts(s.dir, layout) && Total(outputs)
    requires s.dir.manifest.value.lengths.Keys == outputs.Keys
    requires |outputs[StreetEntries]| == s.dir.manifest.value.lengths[StreetEntries]
    ensures IsRun(run) && run[0] == s
    ensures AcceptsAcross(run, 0, (n: Name) => |run| - 1, |run| - 1, layout)
    ensures FileOf(run[|run| - 1].dir.live, s.nextGen, StreetEntries)
    ensures FileOf(run[|run| - 1].dir.live, s.dir.manifest.value.gen, GeoCells)
    ensures s.dir.manifest.value.gen < s.nextGen
  {
    run := LoadCanMixBuilds(s, outputs, layout);
    var live, m := run[|run| - 1].dir.live, s.dir.manifest.value;
    forall n ensures LengthMatches(live, m, n) {
      assert LengthMatches(s.dir.live, m, n);
    }
    assert FileOf(s.dir.live, m.gen, GeoCells);
  }

  /** A build that wrote all files can go on to rename the first. */
  lemma RenameFirst(run: seq<State>) returns (longer: seq<State>)
    requires IsRun(run) && run[|run| - 1].phase == Writing([])
    ensures IsRun(longer) && longer[0] == run[0]
    ensures var s, s' := run[|run| - 1], longer[|longer| - 1];
            && StreetEntries in s.dir.tmp
            && s'.dir.live == s.dir.live[StreetEntries := s.dir.tmp[StreetEntries]]
  {
    var s2 := run[|run| - 1];
    var s3 := s2.(dir := s2.dir.(manifest := None), phase := Committing(WRITE_ORDER));
    assert RemoveManifest(s2, s3);
    longer := Extend(run, s3);
    RunInv(longer, |longer| - 1);
    assert Placed(s3, StreetEntries) && WRITE_ORDER[0] == StreetEntries;
    var live := s3.dir.live[StreetEntries := s3.dir.tmp[StreetEntries]];
    var s4 := s3.(dir := s3.dir.(live := live, tmp := s3.dir.tmp - {StreetEntries}),
                  phase := Committing(WRITE_ORDER[1..]));
    assert RenameFile(s3, s4);
    longer := Extend(longer, s4);
  }

  /**
   Nor does a second look always help.  If the next build's files have the accepted lengths and it
   publishes within the same second, the manifest looks the same, and every file is another one.
   */
  lemma SecondLookCanMiss(s: State, outputs: Outputs, layout: Layout) returns (run: seq<State>)
    requires Init(s) && Accepts(s.dir, layout) && Total(outputs)
    requires forall n :: n in s.dir.manifest.value.lengths ==> |outputs[n]| == s.dir.manifest.value.lengths[n]
    requires s.dir.manifest.value.lengths.Keys == outputs.Keys
    ensures IsRun(run) && run[0] == s && run[|run| - 1].dir.manifest.Some?
    ensures LooksLike(s.dir.manifest.value, run[|run| - 1].dir.manifest.value)
    ensures forall n :: FileOf(run[|run| - 1].dir.live, s.nextGen, n) && !FileOf(s.dir.live, s.nextGen, n)
  {
    var m := s.dir.manifest.value;
    var blobs := map n: Name | n in outputs :: Blob(s.nextGen, outputs[n], true);
    run := WholeBuild(s, layout, outputs, blobs, m.about);
    var s' := run[|run| - 1];
    var m' := s'.dir.manifest.value;
    RunInv(run, |run| - 1);
    forall n ensures FileOf(s'.dir.live, s.nextGen, n) && !FileOf(s.dir.live, s.nextGen, n)
      ensures n in m'.lengths && m'.lengths[n] == m.lengths[n]
    {
      assert SameFile(blobs, s'.dir.live, n) && LengthMatches(s'.dir.live, m', n);
    }
    assert m'.lengths == m.lengths;
  }

  // --- Files without their end ---

  /** Step `k` closes file `n` of build `g` and loses its end. */
  ghost predicate LosesEnd(run: seq<State>, k: nat, g: nat, n: Name)
    requires 0 < k < |run|
  {
    LoseFlush(run[k - 1], run[k]) && run[k].gen == g && run[k - 1].phase.todo[0] == n
  }

  ghost predicate Lost(run: seq<State>, j: nat, g: nat, n: Name)
    requires j < |run|
  {
    exists k :: 0 < k <= j && LosesEnd(run, k, g, n)
  }

  lemma LostStep(run: seq<State>, j: nat, g: nat, n: Name)
    requires 0 < j < |run|
    ensures Lost(run, j, g, n) <==> Lost(run, j - 1, g, n) || LosesEnd(run, j, g, n)
  {}

  /** Only builds that have begun have lost anything. */
  lemma {:induction false} LostIsOlder(run: seq<State>, j: nat, g: nat, n: Name)
    requires IsRun(run) && j < |run|
    ensures Lost(run, j, g, n) ==> g < run[j].nextGen
    decreases j
  {
    if j > 0 {
      LostIsOlder(run, j - 1, g, n);
      LostStep(run, j, g, n);
      RunInv(run, j - 1);
      assert Step(run, j);
    }
  }

  /** Where the build at work keeps file `n`. */
  function Place(s: State, n: Name): map<Name, Blob> {
    if s.phase.Writing? || (s.phase.Committing? && n in s.phase.todo) then s.dir.tmp else s.dir.live
  }

  ghost predicate WholeIn(files: map<Name, Blob>, n: Name) {
    n in files && files[n].whole
  }

  /** What the build at work has written of file `n` is whole, unless its end was `lost`. */
  ghost predicate LossShows(s: State, n: Name, lost: bool) {
    s.phase != Idle ==>
      if s.phase.Writing? && n in s.phase.todo then !lost else WholeIn(Place(s, n), n) <==> !lost
  }

  lemma ClosingShowsLoss(s: State, s': State, n: Name, lost: bool)
    requires Inv(s) && (WriteFile(s, s') || LoseFlush(s, s')) && LossShows(s, n, lost)
    ensures LossShows(s', n, lost || (LoseFlush(s, s') && s.phase.todo[0] == n))
  {
    FirstTaken(s.phase.todo, n);
  }

  lemma RenamingShowsLoss(s: State, s': State, n: Name, lost: bool)
    requires Inv(s) && RenameFile(s, s') && LossShows(s, n, lost)
    ensures LossShows(s', n, lost)
  {
    FirstTaken(s.phase.todo, n);
  }

  lemma PartShowsLoss(s: State, s': State, n: Name, lost: bool)
    requires Inv(s) && WritePart(s, s') && LossShows(s, n, lost)
    ensures LossShows(s', n, lost)
  {}

  lemma StartShowsLoss(s: State, s': State, n: Name)
    requires Start(s, s')
    ensures LossShows(s', n, false)
  {
    EveryFile(n);
  }

  lemma RemovalShowsLoss(s: State, s': State, n: Name, lost: bool)
    requires RemoveManifest(s, s') && LossShows(s, n, lost)
    ensures LossShows(s', n, lost)
  {
    EveryFile(n);
  }

  lemma NextShowsLoss(s: State, s': State, n: Name, lost: bool)
    requires Inv(s) && Next(s, s') && LossShows(s, n, lost) && (Start(s, s') ==> !lost)
    ensures LossShows(s', n, lost || (LoseFlush(s, s') && s.phase.todo[0] == n))
  {
    if WriteFile(s, s') || LoseFlush(s, s') {
      ClosingShowsLoss(s, s', n, lost);
    } else if RenameFile(s, s') {
      RenamingShowsLoss(s, s', n, lost);
    } else if WritePart(s, s') {
      PartShowsLoss(s, s', n, lost);
    } else if Start(s, s') {
      StartShowsLoss(s, s', n);
    } else if RemoveManifest(s, s') {
      RemovalShowsLoss(s, s', n, lost);
    }
  }

  /** Beside a manifest no live file changes, and only later builds are at work. */
  lemma LiveBesideManifest(s: State, s': State)
    requires Inv(s) && Next(s, s') && s'.dir.manifest.Some?
    ensures s'.dir.live == s.dir.live
    ensures (s.phase == Ready && s'.dir.manifest.value.gen == s.gen)
            || (s'.dir.manifest == s.dir.manifest && (s.phase != Idle ==> s.dir.manifest.value.gen < s.gen))
  {
    if s.dir.manifest.Some? {
      assert FileOf(s.dir.live, s.dir.manifest.value.gen, Strings);
    }
  }

  lemma {:induction false} WorkShowsLoss(run: seq<State>, j: nat, n: Name)
    requires IsRun(run) && j < |run|
    ensures LossShows(run[j], n, Lost(run, j, run[j].gen, n))
    ensures run[0].nextGen <= run[j].nextGen && (run[j].phase != Idle ==> run[0].nextGen <= run[j].gen)
    decreases j
  {
    if j > 0 {
      WorkShowsLoss(run, j - 1, n);
      RunInv(run, j - 1);
      assert Step(run, j);
      var s, s', lost := run[j - 1], run[j], Lost(run, j - 1, run[j].gen, n);
      LostIsOlder(run, j - 1, s.nextGen, n);
      NextShowsLoss(s, s', n, lost && s.gen == s'.gen);
      LostStep(run, j, s'.gen, n);
    }
  }

  /** A step to a state with a manifest publishes it, or leaves it and all that its build lost. */
  lemma LossBesideManifest(run: seq<State>, j: nat, g: nat, n: Name)
    requires IsRun(run) && 0 < j < |run| && run[j].dir.manifest.Some? && run[j].dir.manifest.value.gen == g
    ensures run[j].dir.live == run[j - 1].dir.live
    ensures Lost(run, j, g, n) <==> Lost(run, j - 1, g, n)
    ensures run[j].dir.manifest == run[j - 1].dir.manifest || (run[j - 1].phase == Ready && run[j - 1].gen == g)
  {
    RunInv(run, j - 1);
    assert Step(run, j);
    LiveBesideManifest(run[j - 1], run[j]);
    LostStep(run, j, g, n);
  }

  /** What the build that published has left is whole, unless its end was lost. */
  lemma {:induction false} ManifestKeepsLoss(run: seq<State>, j: nat, n: Name)
    requires IsRun(run) && j < |run| && run[j].dir.manifest.Some?
    requires run[0].nextGen <= run[j].dir.manifest.value.gen
    ensures WholeIn(run[j].dir.live, n) <==> !Lost(run, j, run[j].dir.manifest.value.gen, n)
    decreases j
  {
    var g := run[j].dir.manifest.value.gen;
    RunInv(run, j);
    assert FileOf(run[j].dir.live, g, n);
    if j > 0 {
      LossBesideManifest(run, j, g, n);
      if run[j].dir.manifest == run[j - 1].dir.manifest {
        ManifestKeepsLoss(run, j - 1, n);
      } else {
        WorkShowsLoss(run, j - 1, n);
      }
    }
  }

  /**
   The lengths in a manifest do not show whether its files are complete, for they are measured on
   disk.  A file of an accepted build of the run is whole exactly if no step lost its end.
   */
  lemma AcceptedIsWhole(run: seq<State>, j: nat, n: Name, layout: Layout)
    requires IsRun(run) && j < |run| && Accepts(run[j].dir, layout)
    requires run[0].nextGen <= run[j].dir.manifest.value.gen
    ensures n in run[j].dir.live
    ensures run[j].dir.live[n].whole <==> !Lost(run, j, run[j].dir.manifest.value.gen, n)
  {
    AcceptedIsOneGeneration(run, j, layout);
    assert FileOf(run[j].dir.live, run[j].dir.manifest.value.gen, n);
    ManifestKeepsLoss(run, j, n);
  }

  /** A build can lose the end of any file, to any length, and be accepted all the same. */
  lemma LostEndIsAccepted(s: State, layout: Layout, outputs: Outputs, n: Name, rest: File) returns (run: seq<State>)
    requires Init(s) && Total(outputs) && outputs[Strings] != [] && outputs[Strings][0] == 0
    requires rest < outputs[n] && (n == Strings ==> rest != [])
    ensures IsRun(run) && run[0] == s && Accepts(run[|run| - 1].dir, layout)
    ensures n in run[|run| - 1].dir.live && run[|run| - 1].dir.live[n].bytes == rest
    ensures run[|run| - 1].outputs == outputs
  {
    var all := map m: Name | m in outputs :: Blob(s.nextGen, outputs[m], true);
    var blobs := all[n := Blob(s.nextGen, rest, false)];
    run := WholeBuild(s, layout, outputs, blobs, About(0, ""));
    var s' := run[|run| - 1];
    assert SameFile(blobs, s'.dir.live, n) && SameFile(blobs, s'.dir.live, Strings);
    PublishedIsAccepted(run, |run| - 1, layout);
  }
}

/**
 A video's job at the grain of single file operations. The worker may fail or die
 between any two of them, and the job may be delivered again any number of times,
 to any worker, one execution at a time.
 */
module WorkerRuns {
  import opened Basics
  import opened VideoRecords
  import opened Worker

  /** Where a worker runs; every host has a disk of its own, and one that comes back with an empty disk is a new one. */
  type Host = string

  datatype Phase = Idle | Staging(copied: nat) | Transcoding | Uploading(done: set<File>) | Cleaning

  /** `host` runs the delivery, or ran the last one. `produced` is the latest version of everything ffmpeg ever wrote. */
  datatype World = World(ready: bool, phase: Phase, host: Host, disks: map<Host, Disk>, store: Store, produced: Disk)

  datatype Op =
    | Deliver(host: Host)  // a worker picks the job up
    | CopyChunk(n: nat)    // bytes of the raw object reach the local file
    | CopyFails(removed: bool)           // the copy errors; whether the partial file could be removed
    | StageDone
    | Write(f: File, content: Content)   // ffmpeg creates or extends an output
    | TranscodingEnds(ready: bool)
    | Upload(f: File)
    | UploadsDone
    | RemoveLocal(f: File)
    | TaskReturns          // nil after cleaning up
    | TaskFails            // any error return
    | Death                // the process is gone; its disk stays

  /** The object the raw file is staged from. */
  datatype Task = Task(id: VideoId, raw: string, source: Content)

  function DiskOf(w: World, h: Host): Disk {
    if h in w.disks then w.disks[h] else map[]
  }

  /** The disk the current delivery works on. */
  function Here(w: World): Disk {
    DiskOf(w, w.host)
  }

  function WithDisk(w: World, disk: Disk): World {
    w.(disks := w.disks[w.host := disk])
  }

  function Delivered(w: World): World {
    if w.ready then w.(phase := Phase.Uploading({}))
    else if Raw in Here(w) then w.(phase := Transcoding)
    else WithDisk(w, Here(w)[Raw := []]).(phase := Staging(0))
  }

  function Apply(t: Task, w: World, op: Op): World {
    match op
    case Deliver(host) => if w.phase != Idle then w else Delivered(w.(host := host))
    case CopyChunk(n) =>
      if !w.phase.Staging? then w
      else
        var copied := Min(w.phase.copied + n, |t.source|);
        WithDisk(w, Here(w)[Raw := t.source[..copied]]).(phase := Staging(copied))
    case CopyFails(removed) =>
      if !w.phase.Staging? then w
      else if removed then WithDisk(w, Here(w) - {Raw}).(phase := Idle)
      else w.(phase := Idle)
    case StageDone => if w.phase == Staging(|t.source|) then w.(phase := Transcoding) else w
    case Write(f, content) =>
      if w.phase != Transcoding || f == Raw then w
      else WithDisk(w, Here(w)[f := content]).(produced := w.produced[f := content])
    case TranscodingEnds(ready) =>
      if w.phase != Transcoding then w
      else if ready then w.(ready := true, phase := Phase.Uploading({}))
      else w.(phase := Idle)
    case Upload(f) =>
      if !w.phase.Uploading? || f !in Outputs(Here(w)) then w
      else w.(phase := Phase.Uploading(w.phase.done + {f}), store := w.store[KeyOf(t.id, t.raw, f) := Here(w)[f]])
    case UploadsDone => if w.phase.Uploading? && Outputs(Here(w)) <= w.phase.done then w.(phase := Cleaning) else w
    case RemoveLocal(f) => if w.phase == Cleaning then WithDisk(w, Here(w) - {f}) else w
    case TaskReturns => if w.phase == Cleaning then w.(phase := Idle) else w
    case TaskFails => if w.phase.Staging? || w.phase == Cleaning then w else w.(phase := Idle)
    case Death => w.(phase := Idle)
  }

  ghost predicate Follows(t: Task, ws: seq<World>, ops: seq<Op>) {
    |ws| == |ops| + 1 && forall i :: 0 <= i < |ops| ==> ws[i + 1] == Apply(t, ws[i], ops[i])
  }

  /** Nothing is assumed of what the disks held before the video's first delivery. */
  ghost predicate IsRun(t: Task, ws: seq<World>, ops: seq<Op>) {
    Follows(t, ws, ops) && ws[0].phase == Idle && !ws[0].ready && ws[0].produced == map[]
  }

  /** What always hangs together. */
  ghost predicate Shaped(t: Task, w: World) {
    && Raw !in w.produced
    && (w.phase.Staging? || w.phase == Transcoding ==> !w.ready && Raw in Here(w))
    && (w.phase.Staging? ==> w.phase.copied <= |t.source| && Here(w)[Raw] == t.source[..w.phase.copied])
    && (w.phase.Uploading? || w.phase == Cleaning ==> w.ready)
    && (w.phase.Uploading? ==>
          forall f :: f in w.phase.done ==> f in Outputs(Here(w)) && Uploaded(t.id, t.raw, Here(w), w.store, f))
    && (w.phase == Cleaning ==> forall f :: f in Outputs(Here(w)) ==> Uploaded(t.id, t.raw, Here(w), w.store, f))
  }

  lemma UploadKeepsShape(t: Task, w: World, f: File)
    requires Shaped(t, w) && w.phase.Uploading? && f in Outputs(Here(w))
    ensures Shaped(t, Apply(t, w, Upload(f)))
  {
    var w' := Apply(t, w, Upload(f));
    forall g | g in w'.phase.done
      ensures g in Outputs(Here(w')) && Uploaded(t.id, t.raw, Here(w'), w'.store, g)
    {
      KeysAreDistinct(t.id, t.raw, f, g);
      assert g != f ==> g in w.phase.done;
    }
  }

  lemma FinishingKeepsShape(t: Task, w: World)
    requires Shaped(t, w)
    ensures Shaped(t, Apply(t, w, UploadsDone))
  {
    if w.phase.Uploading? && Outputs(Here(w)) <= w.phase.done {
      forall f | f in Outputs(Here(w)) ensures Uploaded(t.id, t.raw, Here(w), w.store, f) {
        assert f in w.phase.done;
      }
    }
  }

  lemma RemovalKeepsShape(t: Task, w: World, f: File)
    requires Shaped(t, w)
    ensures Shaped(t, Apply(t, w, RemoveLocal(f)))
  {
    if w.phase == Cleaning {
      var w' := Apply(t, w, RemoveLocal(f));
      assert Here(w') == Here(w) - {f};
      forall g | g in Outputs(Here(w')) ensures Uploaded(t.id, t.raw, Here(w'), w'.store, g) {
        assert g in Outputs(Here(w));
      }
    }
  }

  lemma StepKeepsShape(t: Task, w: World, op: Op)
    requires Shaped(t, w)
    ensures Shaped(t, Apply(t, w, op))
  {
    match op
    case Upload(f) =>
      if w.phase.Uploading? && f in Outputs(Here(w)) {
        UploadKeepsShape(t, w, f);
      }
    case UploadsDone => FinishingKeepsShape(t, w);
    case RemoveLocal(f) => RemovalKeepsShape(t, w, f);
    case _ =>
  }

  lemma {:induction false} RunIsShaped(t: Task, ws: seq<World>, ops: seq<Op>, j: nat)
    requires IsRun(t, ws, ops) && j < |ws|
    ensures Shaped(t, ws[j])
  {
    if 0 < j {
      RunIsShaped(t, ws, ops, j - 1);
      StepKeepsShape(t, ws[j - 1], ops[j - 1]);
    }
  }

  // ---- Exactly when nothing is lost ----

  ghost predicate InStore(t: Task, w: World, f: File)
    requires f in w.produced
  {
    StoredAs(w.store, KeyOf(t.id, t.raw, f), w.produced[f])
  }

  predicate OnDisk(w: World, h: Host, f: File)
    requires f in w.produced
  {
    f in DiskOf(w, h) && DiskOf(w, h)[f] == w.produced[f]
  }

  ghost predicate OnSomeDisk(w: World, f: File)
    requires f in w.produced
  {
    exists h :: OnDisk(w, h, f)
  }

  ghost predicate Survives(t: Task, w: World, f: File)
    requires f in w.produced
  {
    InStore(t, w, f) || OnSomeDisk(w, f)
  }

  /** An upload of another version of an output, left on this host by an earlier attempt, over the only copy. */
  ghost predicate Buries(w: World, op: Op, f: File) {
    && op == Upload(f) && w.phase.Uploading? && f in Outputs(Here(w))
    && f in w.produced && Here(w)[f] != w.produced[f] && !OnSomeDisk(w, f)
  }

  ghost predicate SameOutputs(disk: Disk, disk': Disk) {
    forall f :: f != Raw ==> (f in disk <==> f in disk') && (f in disk ==> disk[f] == disk'[f])
  }

  predicate TouchesOutputs(op: Op) {
    op.Write? || op.Upload? || op.RemoveLocal?
  }

  lemma SettingHere(w: World, disk: Disk, h: Host)
    requires SameOutputs(Here(w), disk)
    ensures SameOutputs(DiskOf(w, h), DiskOf(WithDisk(w, disk), h))
  {
  }

  lemma StagingTouchesNoOutput(t: Task, w: World, op: Op, h: Host)
    requires op.Deliver? || op.CopyChunk? || op.CopyFails?
    ensures SameOutputs(DiskOf(w, h), DiskOf(Apply(t, w, op), h))
  {
    match op
    case Deliver(host) =>
      var there := w.(host := host);
      SettingHere(there, Here(there)[Raw := []], h);
    case CopyChunk(n) =>
      if w.phase.Staging? {
        SettingHere(w, Here(w)[Raw := t.source[..Min(w.phase.copied + n, |t.source|)]], h);
      }
    case CopyFails(_) => SettingHere(w, Here(w) - {Raw}, h);
  }

  lemma QuietStep(t: Task, w: World, op: Op, h: Host)
    requires !TouchesOutputs(op)
    ensures var w' := Apply(t, w, op);
            w'.store == w.store && w'.produced == w.produced && SameOutputs(DiskOf(w, h), DiskOf(w', h))
  {
    if op.Deliver? || op.CopyChunk? || op.CopyFails? {
      StagingTouchesNoOutput(t, w, op, h);
    }
  }

  lemma OtherDisks(t: Task, w: World, op: Op, h: Host)
    requires !op.Deliver? && h != w.host
    ensures DiskOf(Apply(t, w, op), h) == DiskOf(w, h)
  {
  }

  lemma UploadSaves(t: Task, w: World, op: Op, f: File)
    requires op.Upload? && f in w.produced && Survives(t, w, f) && !Buries(w, op, f)
    ensures Survives(t, Apply(t, w, op), f)
  {
    var w' := Apply(t, w, op);
    KeysAreDistinct(t.id, t.raw, op.f, f);
    if h :| OnDisk(w, h, f) {
      assert OnDisk(w', h, f);
    }
  }

  /** Only ffmpeg and the final clean-up touch an output on disk. */
  lemma OtherStepsKeepFiles(t: Task, w: World, op: Op, h: Host, f: File)
    requires Raw !in w.produced && f in w.produced && OnDisk(w, h, f)
    requires !(op.Write? && op.f == f) && !(op.RemoveLocal? && op.f == f && w.phase == Cleaning && h == w.host)
    ensures f in Apply(t, w, op).produced && OnDisk(Apply(t, w, op), h, f)
  {
    if !TouchesOutputs(op) {
      QuietStep(t, w, op, h);
    } else if h != w.host {
      OtherDisks(t, w, op, h);
    }
  }

  lemma StoreIsKept(t: Task, w: World, op: Op, f: File)
    requires f in w.produced && InStore(t, w, f) && !op.Upload? && !(op.Write? && op.f == f)
    ensures f in Apply(t, w, op).produced && InStore(t, Apply(t, w, op), f)
  {
  }

  lemma StepSaves(t: Task, w: World, op: Op, f: File)
    requires Shaped(t, w) && f in w.produced && Survives(t, w, f) && !Buries(w, op, f)
    ensures f in Apply(t, w, op).produced && Survives(t, Apply(t, w, op), f)
  {
    if op.Upload? {
      UploadSaves(t, w, op, f);
    } else if op.Write? && op.f == f {
      if w.phase == Transcoding {
        assert OnDisk(Apply(t, w, op), w.host, f);
      }
    } else if InStore(t, w, f) {
      StoreIsKept(t, w, op, f);
    } else {
      var h :| OnDisk(w, h, f);
      assert h == w.host ==> f in Outputs(Here(w));
      OtherStepsKeepFiles(t, w, op, h, f);
    }
  }

  lemma {:induction false} SurvivesUnlessBuried(t: Task, ws: seq<World>, ops: seq<Op>, j: nat, f: File)
    requires IsRun(t, ws, ops) && j < |ws| && f in ws[j].produced
    requires forall i :: 0 <= i < j ==> !Buries(ws[i], ops[i], f)
    ensures Survives(t, ws[j], f)
  {
    assert 0 < j;
    assert ws[j] == Apply(t, ws[j - 1], ops[j - 1]);
    if f in ws[j - 1].produced {
      SurvivesUnlessBuried(t, ws, ops, j - 1, f);
      RunIsShaped(t, ws, ops, j - 1);
      StepSaves(t, ws[j - 1], ops[j - 1], f);
    } else {
      assert OnDisk(ws[j], ws[j].host, f);
    }
  }

  ghost predicate Lost(t: Task, w: World, f: File) {
    w.ready && f in w.produced && !Survives(t, w, f)
  }

  lemma BurialLoses(t: Task, w: World, op: Op, f: File)
    requires Shaped(t, w) && Buries(w, op, f)
    ensures Lost(t, Apply(t, w, op), f)
  {
    var w' := Apply(t, w, op);
    forall h ensures !OnDisk(w', h, f) {
      assert !OnDisk(w, h, f);
    }
  }

  lemma LostFilesStayAway(t: Task, w: World, op: Op, h: Host, f: File)
    requires Shaped(t, w) && Lost(t, w, f)
    ensures Apply(t, w, op).produced == w.produced && !OnDisk(Apply(t, w, op), h, f)
  {
    assert !OnDisk(w, h, f);
    if !TouchesOutputs(op) {
      QuietStep(t, w, op, h);
    } else if h != w.host {
      OtherDisks(t, w, op, h);
    }
  }

  lemma LostStays(t: Task, w: World, op: Op, f: File)
    requires Shaped(t, w) && Lost(t, w, f)
    ensures Lost(t, Apply(t, w, op), f)
  {
    forall h ensures Apply(t, w, op).produced == w.produced && !OnDisk(Apply(t, w, op), h, f) {
      LostFilesStayAway(t, w, op, h, f);
    }
    if op.Upload? {
      KeysAreDistinct(t.id, t.raw, op.f, f);
      assert !OnDisk(w, w.host, f);
    } else if !TouchesOutputs(op) {
      QuietStep(t, w, op, w.host);
    }
  }

  lemma {:induction false} BuriedForGood(t: Task, ws: seq<World>, ops: seq<Op>, i: nat, j: nat, f: File)
    requires IsRun(t, ws, ops) && i < j < |ws| && Buries(ws[i], ops[i], f)
    ensures Lost(t, ws[j], f)
  {
    RunIsShaped(t, ws, ops, j - 1);
    if i + 1 == j {
      BurialLoses(t, ws[i], ops[i], f);
    } else {
      BuriedForGood(t, ws, ops, i, j - 1, f);
      LostStays(t, ws[j - 1], ops[j - 1], f);
    }
  }

  /**
   On whatever hosts the job runs, and through every failure and death, an output is on some
   disk or in the store exactly when no stale version of it has been uploaded over its only copy.
   */
  lemma OutputsSurviveExactlyWhen(t: Task, ws: seq<World>, ops: seq<Op>, j: nat, f: File)
    requires IsRun(t, ws, ops) && j < |ws| && f in ws[j].produced
    ensures Survives(t, ws[j], f) <==> forall i :: 0 <= i < j ==> !Buries(ws[i], ops[i], f)
  {
    if i :| 0 <= i < j && Buries(ws[i], ops[i], f) {
      BuriedForGood(t, ws, ops, i, j, f);
    } else {
      SurvivesUnlessBuried(t, ws, ops, j, f);
    }
  }

  lemma Chained(t: Task, ws: seq<World>, ops: seq<Op>, ws': seq<World>, ops': seq<Op>)
    requires Follows(t, ws, ops) && Follows(t, ws', ops') && ws[|ops|] == ws'[0]
    ensures Follows(t, ws[..|ops|] + ws', ops + ops')
  {
    var all := ws[..|ops|] + ws';
    forall i | 0 <= i < |ops + ops'| ensures all[i + 1] == Apply(t, all[i], (ops + ops')[i]) {
      if i < |ops| {
        assert ws[i + 1] == Apply(t, ws[i], ops[i]) && all[i + 1] == ws[i + 1];
      } else {
        assert ws'[i - |ops| + 1] == Apply(t, ws'[i - |ops|], ops'[i - |ops|]);
      }
    }
  }

  lemma StagingCopies(t: Task, w: World, h: Host) returns (ws: seq<World>, ops: seq<Op>)
    requires w.phase == Idle && !w.ready && DiskOf(w, h) == map[]
    ensures ops == [Deliver(h), CopyChunk(|t.source|), StageDone] && Follows(t, ws, ops) && ws[0] == w
    ensures ws[3] == w.(phase := Transcoding, host := h, disks := w.disks[h := map[Raw := t.source]])
  {
    var s := t.source;
    assert s[..|s|] == s;
    ops := [Deliver(h), CopyChunk(|s|), StageDone];
    var w1 := w.(phase := Staging(0), host := h, disks := w.disks[h := map[Raw := []]]);
    var w2 := w1.(phase := Staging(|s|), disks := w.disks[h := map[Raw := s]]);
    assert w1 == Apply(t, w, ops[0]);
    assert Here(w1)[Raw := s] == map[Raw := s] && w1.disks[h := map[Raw := s]] == w2.disks;
    assert w2 == Apply(t, w1, ops[1]);
    ws := [w, w1, w2, Apply(t, w2, ops[2])];
  }

  /** An attempt on a host without the raw file makes one output; a failed one leaves it there. */
  lemma AttemptMakes(t: Task, w: World, h: Host, f: File, content: Content, ready: bool) returns (ws: seq<World>, ops: seq<Op>)
    requires w.phase == Idle && !w.ready && DiskOf(w, h) == map[] && f != Raw
    ensures ops == [Deliver(h), CopyChunk(|t.source|), StageDone] + [Write(f, content), TranscodingEnds(ready)]
    ensures Follows(t, ws, ops) && ws[0] == w
    ensures ws[5] == World(ready, if ready then Phase.Uploading({}) else Idle, h,
                           w.disks[h := map[Raw := t.source, f := content]], w.store, w.produced[f := content])
  {
    var us, staging := StagingCopies(t, w, h);
    var making := [Write(f, content), TranscodingEnds(ready)];
    var w4 := Apply(t, us[3], making[0]);
    var vs := [us[3], w4, Apply(t, w4, making[1])];
    Chained(t, us, staging, vs, making);
    ws, ops := us[..3] + vs, staging + making;
    assert us[3].disks[h := map[Raw := t.source, f := content]] == w.disks[h := map[Raw := t.source, f := content]];
  }

  /** The output is stored and removed locally, and the worker dies before it can say so. */
  lemma StoredThenDeath(t: Task, w: World, f: File) returns (ws: seq<World>, ops: seq<Op>)
    requires w.phase == Phase.Uploading({}) && Outputs(Here(w)) == {f}
    ensures ops == [Upload(f), UploadsDone, RemoveLocal(f), Death] && Follows(t, ws, ops) && ws[0] == w
    ensures ws[4] == WithDisk(w, Here(w) - {f}).(phase := Idle, store := w.store[KeyOf(t.id, t.raw, f) := Here(w)[f]])
  {
    ops := [Upload(f), UploadsDone, RemoveLocal(f), Death];
    var w1 := w.(phase := Phase.Uploading({f}), store := w.store[KeyOf(t.id, t.raw, f) := Here(w)[f]]);
    var w2 := w1.(phase := Cleaning);
    var w3 := WithDisk(w2, Here(w) - {f});
    assert f in Outputs(Here(w)) && {} + {f} == {f};
    assert w1 == Apply(t, w, ops[0]);
    assert Here(w1) == Here(w);
    assert w2 == Apply(t, w1, ops[1]);
    ws := [w, w1, w2, w3, Apply(t, w3, ops[3])];
  }

  /** The next delivery to a host that still has another version uploads that one. */
  lemma RedeliveryBuries(t: Task, w: World, h: Host, f: File) returns (ws: seq<World>, ops: seq<Op>)
    requires w.phase == Idle && w.ready && f in w.produced && InStore(t, w, f) && !OnSomeDisk(w, f)
    requires f in Outputs(DiskOf(w, h))
    ensures ops == [Deliver(h), Upload(f)] && Follows(t, ws, ops) && ws[0] == w
    ensures Buries(ws[1], ops[1], f) && ws[2].produced == w.produced && Lost(t, ws[2], f)
  {
    ops := [Deliver(h), Upload(f)];
    var w1 := Apply(t, w, ops[0]);
    ws := [w, w1, Apply(t, w1, ops[1])];
    assert !OnDisk(w, h, f);
    forall g ensures !OnDisk(w1, g, f) && !OnDisk(ws[2], g, f) {
      assert !OnDisk(w, g, f);
    }
  }

  /** A failed attempt on one host leaves its output there; another host makes and stores the output; a redelivery buries it. */
  lemma LeftoversBuryOutputs(t: Task, w: World, a: Host, b: Host, f: File, stale: Content, made: Content)
    returns (ws: seq<World>, ops: seq<Op>)
    requires w == World(false, Idle, a, map[], w.store, map[]) && a != b && f != Raw && stale != made
    ensures IsRun(t, ws, ops) && ws[0] == w
    ensures ops == [Deliver(a), CopyChunk(|t.source|), StageDone] + [Write(f, stale), TranscodingEnds(false)]
                 + ([Deliver(b), CopyChunk(|t.source|), StageDone] + [Write(f, made), TranscodingEnds(true)])
                 + ([Upload(f), UploadsDone, RemoveLocal(f), Death] + [Deliver(a), Upload(f)])
    ensures f in ws[14].produced && ws[14].produced[f] == made && InStore(t, ws[14], f)
    ensures ws[16].produced == ws[14].produced && Lost(t, ws[16], f)
  {
    var us, failing := AttemptMakes(t, w, a, f, stale, false);
    var vs, making := AttemptMakes(t, us[5], b, f, made, true);
    assert Outputs(Here(vs[5])) == {f};
    var xs, storing := StoredThenDeath(t, vs[5], f);
    forall h ensures !OnDisk(xs[4], h, f) {
      assert h != a && h != b ==> h !in xs[4].disks;
    }
    var ys, burying := RedeliveryBuries(t, xs[4], a, f);
    Chained(t, us, failing, vs, making);
    Chained(t, xs, storing, ys, burying);
    Chained(t, us[..5] + vs, failing + making, xs[..4] + ys, storing + burying);
    ws, ops := (us[..5] + vs)[..10] + (xs[..4] + ys), failing + making + (storing + burying);
  }

  // ---- One host, or a disk they share ----

  /** Every delivery runs on this host, which starts without outputs of the video. */
  ghost predicate OnOneHost(t: Task, ws: seq<World>, ops: seq<Op>, h: Host) {
    && IsRun(t, ws, ops)
    && ws[0].host == h && Outputs(DiskOf(ws[0], h)) == {}
    && forall i :: 0 <= i < |ops| ==> ops[i].Deliver? ==> ops[i].host == h
  }

  ghost predicate NothingLost(t: Task, w: World, h: Host) {
    && w.host == h && Shaped(t, w)
    && (forall f :: f in Outputs(Here(w)) ==> f in w.produced && OnDisk(w, h, f))
    && (forall f :: f in w.produced && f !in Here(w) ==> InStore(t, w, f))
  }

  lemma UploadLosesNothing(t: Task, w: World, h: Host, f: File)
    requires NothingLost(t, w, h) && w.phase.Uploading? && f in Outputs(Here(w))
    ensures NothingLost(t, Apply(t, w, Upload(f)), h)
  {
    var w' := Apply(t, w, Upload(f));
    UploadKeepsShape(t, w, f);
    forall g | g in w'.produced && g !in Here(w') ensures InStore(t, w', g) {
      KeysAreDistinct(t.id, t.raw, f, g);
      assert InStore(t, w, g);
    }
    forall g | g in Outputs(Here(w')) ensures g in w'.produced && OnDisk(w', h, g) {
      assert OnDisk(w, h, g);
    }
  }

  lemma RemovalLosesNothing(t: Task, w: World, h: Host, f: File)
    requires NothingLost(t, w, h)
    ensures NothingLost(t, Apply(t, w, RemoveLocal(f)), h)
  {
    var w' := Apply(t, w, RemoveLocal(f));
    StepKeepsShape(t, w, RemoveLocal(f));
    forall g | g in w'.produced && g !in Here(w') ensures InStore(t, w', g) {
      if g in Here(w) {
        assert g in Outputs(Here(w)) && OnDisk(w, h, g);
      }
    }
    forall g | g in Outputs(Here(w')) ensures g in w'.produced && OnDisk(w', h, g) {
      assert g in Outputs(Here(w)) && OnDisk(w, h, g);
    }
  }

  lemma WritingLosesNothing(t: Task, w: World, h: Host, f: File, content: Content)
    requires NothingLost(t, w, h)
    ensures NothingLost(t, Apply(t, w, Write(f, content)), h)
  {
    var w' := Apply(t, w, Write(f, content));
    StepKeepsShape(t, w, Write(f, content));
    forall g | g in Outputs(Here(w')) ensures g in w'.produced && OnDisk(w', h, g) {
      assert g in Outputs(Here(w)) ==> OnDisk(w, h, g);
    }
    forall g | g in w'.produced && g !in Here(w') ensures InStore(t, w', g) {
      assert InStore(t, w, g);
    }
  }

  lemma QuietStepLosesNothing(t: Task, w: World, h: Host, op: Op)
    requires NothingLost(t, w, h) && !TouchesOutputs(op) && (op.Deliver? ==> op.host == h)
    ensures NothingLost(t, Apply(t, w, op), h)
  {
    var w' := Apply(t, w, op);
    StepKeepsShape(t, w, op);
    QuietStep(t, w, op, h);
    forall g | g in Outputs(Here(w')) ensures g in w'.produced && OnDisk(w', h, g) {
      assert g in Outputs(Here(w)) && OnDisk(w, h, g);
    }
    forall g | g in w'.produced && g !in Here(w') ensures InStore(t, w', g) {
      assert InStore(t, w, g);
    }
  }

  lemma StepLosesNothing(t: Task, w: World, h: Host, op: Op)
    requires NothingLost(t, w, h) && (op.Deliver? ==> op.host == h)
    ensures NothingLost(t, Apply(t, w, op), h)
  {
    match op
    case Upload(f) =>
      if w.phase.Uploading? && f in Outputs(Here(w)) {
        UploadLosesNothing(t, w, h, f);
      }
    case RemoveLocal(f) => RemovalLosesNothing(t, w, h, f);
    case Write(f, content) => WritingLosesNothing(t, w, h, f, content);
    case _ => QuietStepLosesNothing(t, w, h, op);
  }

  lemma {:induction false} RunLosesNothing(t: Task, ws: seq<World>, ops: seq<Op>, h: Host, j: nat)
    requires OnOneHost(t, ws, ops, h) && j < |ws|
    ensures NothingLost(t, ws[j], h)
  {
    if 0 < j {
      RunLosesNothing(t, ws, ops, h, j - 1);
      StepLosesNothing(t, ws[j - 1], h, ops[j - 1]);
    }
  }

  /** There each output is on disk or in the store at every step. */
  lemma NoFailurePointLosesAnOutput(t: Task, ws: seq<World>, ops: seq<Op>, h: Host, j: nat, f: File)
    requires OnOneHost(t, ws, ops, h) && j < |ws| && f in ws[j].produced
    ensures OnDisk(ws[j], h, f) || InStore(t, ws[j], f)
  {
    RunLosesNothing(t, ws, ops, h, j);
    assert f in Here(ws[j]) ==> f in Outputs(Here(ws[j]));
  }

  /** When the job returns nil, everything the transcoder wrote is in the store. */
  lemma SuccessMeansStored(t: Task, ws: seq<World>, ops: seq<Op>, h: Host, i: nat, f: File)
    requires OnOneHost(t, ws, ops, h) && i < |ops| && ops[i] == TaskReturns && ws[i].phase == Cleaning
    requires f in ws[i].produced
    ensures InStore(t, ws[i], f) && InStore(t, ws[i + 1], f) && ws[i + 1].produced == ws[i].produced
  {
    RunLosesNothing(t, ws, ops, h, i);
    if f in Here(ws[i]) {
      assert f in Outputs(Here(ws[i])) && OnDisk(ws[i], h, f);
    }
    assert ws[i + 1] == Apply(t, ws[i], ops[i]);
  }

  lemma StoredStays(t: Task, w: World, h: Host, op: Op, f: File)
    requires NothingLost(t, w, h) && w.ready && f in w.produced && InStore(t, w, f)
    ensures var w' := Apply(t, w, op);
            w'.ready && w'.produced == w.produced && InStore(t, w', f)
  {
    if op.Upload? {
      KeysAreDistinct(t.id, t.raw, op.f, f);
      assert op.f in Outputs(Here(w)) ==> OnDisk(w, h, op.f);
    }
  }

  /** And there it stays, whatever redeliveries follow. */
  lemma {:induction false} StoredForGood(t: Task, ws: seq<World>, ops: seq<Op>, h: Host, i: nat, j: nat, f: File)
    requires OnOneHost(t, ws, ops, h) && i < j < |ws| && ops[i] == TaskReturns && ws[i].phase == Cleaning
    requires f in ws[i].produced
    ensures ws[j].ready && ws[j].produced == ws[i].produced && InStore(t, ws[j], f)
  {
    if j == i + 1 {
      SuccessMeansStored(t, ws, ops, h, i, f);
      RunLosesNothing(t, ws, ops, h, i);
      assert ws[j] == Apply(t, ws[i], ops[i]);
    } else {
      StoredForGood(t, ws, ops, h, i, j - 1, f);
      RunLosesNothing(t, ws, ops, h, j - 1);
      StoredStays(t, ws[j - 1], h, ops[j - 1], f);
      assert ws[j] == Apply(t, ws[j - 1], ops[j - 1]);
    }
  }

  // ---- What ffmpeg reads ----

  predicate StagingOn(w: World, h: Host) {
    w.phase.Staging? && w.host == h
  }

  /** The copy on this host ends early and leaves a part of the raw file behind. */
  predicate CutsShort(t: Task, w: World, op: Op, h: Host) {
    (op == Death || op == CopyFails(false)) && StagingOn(w, h) && w.phase.copied != |t.source|
  }

  predicate WholeRaw(t: Task, w: World, h: Host) {
    !StagingOn(w, h) && !w.ready && Raw in DiskOf(w, h) ==> DiskOf(w, h)[Raw] == t.source
  }

  /** From here on the raw file is never copied to this host again, and it is wrong as long as it matters. */
  predicate BrokenRaw(t: Task, w: World, h: Host) {
    !StagingOn(w, h) && (w.ready || (Raw in DiskOf(w, h) && DiskOf(w, h)[Raw] != t.source))
  }

  lemma StepKeepsWhole(t: Task, w: World, op: Op, h: Host)
    requires Shaped(t, w) && WholeRaw(t, w, h) && !CutsShort(t, w, op, h)
    ensures WholeRaw(t, Apply(t, w, op), h)
  {
    assert t.source[..|t.source|] == t.source;
  }

  lemma {:induction false} WholeUnlessCutShort(t: Task, ws: seq<World>, ops: seq<Op>, j: nat, h: Host)
    requires IsRun(t, ws, ops) && j < |ws| && Raw !in DiskOf(ws[0], h)
    requires forall i :: 0 <= i < j ==> !CutsShort(t, ws[i], ops[i], h)
    ensures WholeRaw(t, ws[j], h)
  {
    if 0 < j {
      WholeUnlessCutShort(t, ws, ops, j - 1, h);
      RunIsShaped(t, ws, ops, j - 1);
      StepKeepsWhole(t, ws[j - 1], ops[j - 1], h);
    }
  }

  lemma StepKeepsBroken(t: Task, w: World, op: Op, h: Host)
    requires Shaped(t, w) && (BrokenRaw(t, w, h) || CutsShort(t, w, op, h))
    ensures BrokenRaw(t, Apply(t, w, op), h)
  {
  }

  lemma {:induction false} BrokenOnceCutShort(t: Task, ws: seq<World>, ops: seq<Op>, i: nat, j: nat, h: Host)
    requires IsRun(t, ws, ops) && i < j < |ws| && CutsShort(t, ws[i], ops[i], h)
    ensures BrokenRaw(t, ws[j], h)
  {
    RunIsShaped(t, ws, ops, j - 1);
    if i + 1 < j {
      BrokenOnceCutShort(t, ws, ops, i, j - 1, h);
    }
    StepKeepsBroken(t, ws[j - 1], ops[j - 1], h);
  }

  /**
   What a host transcodes is the object that was uploaded exactly when no copy to that host has
   ended early and left its part: by a death, or by an error after which the part could not be removed.
   */
  lemma TranscodesWhatWasUploadedExactlyWhen(t: Task, ws: seq<World>, ops: seq<Op>, j: nat)
    requires IsRun(t, ws, ops) && j < |ws| && ws[j].phase == Transcoding && Raw !in DiskOf(ws[0], ws[j].host)
    ensures Raw in Here(ws[j])
    ensures Here(ws[j])[Raw] == t.source <==> forall i :: 0 <= i < j ==> !CutsShort(t, ws[i], ops[i], ws[j].host)
  {
    var h := ws[j].host;
    RunIsShaped(t, ws, ops, j);
    if i :| 0 <= i < j && CutsShort(t, ws[i], ops[i], h) {
      BrokenOnceCutShort(t, ws, ops, i, j, h);
    } else {
      WholeUnlessCutShort(t, ws, ops, j, h);
    }
  }

  /** Either way the next delivery there transcodes the part: staging reuses any file present. */
  lemma CutShortCopyIsTranscoded(t: Task, w: World, copied: nat, cut: Op) returns (ws: seq<World>, ops: seq<Op>)
    requires w == World(false, Idle, w.host, map[], map[KeyOf(t.id, t.raw, Raw) := t.source], map[])
    requires copied < |t.source| && (cut == Death || cut == CopyFails(false))
    ensures IsRun(t, ws, ops) && ws[0] == w && ops == [Deliver(w.host), CopyChunk(copied), cut, Deliver(w.host)]
    ensures ws[4].phase == Transcoding && Raw in Here(ws[4]) && Here(ws[4])[Raw] == t.source[..copied] != t.source
  {
    ops := [Deliver(w.host), CopyChunk(copied), cut, Deliver(w.host)];
    var w1 := Apply(t, w, ops[0]);
    var w2 := Apply(t, w1, ops[1]);
    var w3 := Apply(t, w2, ops[2]);
    ws := [w, w1, w2, w3, Apply(t, w3, ops[3])];
  }

  // ---- What a nil return stores ----

  /** In the middle of an upload from `disk` that found `store` when it began. */
  ghost predicate Underway(t: Task, disk: Disk, store: Store, w: World) {
    match w.phase
    case Uploading(done) =>
      && Here(w) == disk && done <= Outputs(disk)
      && (forall f :: f in done ==> Uploaded(t.id, t.raw, disk, w.store, f))
      && (forall f :: f != Raw && f !in done ==> SameUnder(KeyOf(t.id, t.raw, f), store, w.store))
    case Cleaning => AllUploaded(t.id, t.raw, disk, store, w.store)
    case _ => false
  }

  lemma UploadGoesOn(t: Task, disk: Disk, store: Store, w: World, f: File)
    requires Underway(t, disk, store, w) && w.phase.Uploading? && f in Outputs(disk)
    ensures Underway(t, disk, store, Apply(t, w, Upload(f)))
  {
    var w' := Apply(t, w, Upload(f));
    forall g | g in w'.phase.done ensures Uploaded(t.id, t.raw, disk, w'.store, g) {
      KeysAreDistinct(t.id, t.raw, f, g);
      assert g != f ==> Uploaded(t.id, t.raw, disk, w.store, g);
    }
    forall g | g != Raw && g !in w'.phase.done ensures SameUnder(KeyOf(t.id, t.raw, g), store, w'.store) {
      KeysAreDistinct(t.id, t.raw, f, g);
      assert SameUnder(KeyOf(t.id, t.raw, g), store, w.store);
    }
  }

  lemma StepGoesOn(t: Task, disk: Disk, store: Store, w: World, op: Op)
    requires Underway(t, disk, store, w) && Apply(t, w, op).phase != Idle
    ensures Underway(t, disk, store, Apply(t, w, op))
  {
    match op
    case Upload(f) =>
      if w.phase.Uploading? && f in Outputs(disk) {
        UploadGoesOn(t, disk, store, w, f);
      }
    case UploadsDone =>
      if w.phase.Uploading? && Outputs(disk) <= w.phase.done {
        forall f | f != Raw
          ensures if f in disk then Uploaded(t.id, t.raw, disk, w.store, f)
                  else SameUnder(KeyOf(t.id, t.raw, f), store, w.store)
        {
          assert f in disk ==> f in Outputs(disk);
        }
      }
    case _ =>
  }

  lemma {:induction false} DeliveryGoesOn(t: Task, ws: seq<World>, ops: seq<Op>, d: nat, i: nat, h: Host)
    requires IsRun(t, ws, ops) && d < i < |ws|
    requires ops[d] == Deliver(h) && ws[d].phase == Idle && ws[d].ready
    requires forall k :: d < k <= i ==> ws[k].phase != Idle
    ensures Underway(t, DiskOf(ws[d], h), ws[d].store, ws[i])
  {
    assert ws[i] == Apply(t, ws[i - 1], ops[i - 1]);
    if d + 1 < i {
      DeliveryGoesOn(t, ws, ops, d, i - 1, h);
      StepGoesOn(t, DiskOf(ws[d], h), ws[d].store, ws[i - 1], ops[i - 1]);
    }
  }

  /**
   A redelivery of a ready video, on whatever host, that returns nil leaves an output in the
   store with a given content, say the one the transcoder produced, exactly when the disk
   held the output so, or held no version of it and the store had it already.
   */
  lemma NilReturnStoresExactlyWhen(t: Task, ws: seq<World>, ops: seq<Op>, d: nat, i: nat, h: Host, f: File, content: Content)
    requires IsRun(t, ws, ops) && d < i < |ops|
    requires ops[d] == Deliver(h) && ws[d].phase == Idle && ws[d].ready
    requires forall k :: d < k <= i ==> ws[k].phase != Idle
    requires ops[i] == TaskReturns && ws[i].phase == Cleaning && f != Raw
    ensures var disk := DiskOf(ws[d], h);
            StoredAs(ws[i + 1].store, KeyOf(t.id, t.raw, f), content) <==>
              if f in disk then disk[f] == content else StoredAs(ws[d].store, KeyOf(t.id, t.raw, f), content)
  {
    DeliveryGoesOn(t, ws, ops, d, i, h);
    assert ws[i + 1] == Apply(t, ws[i], ops[i]);
    StoredExactlyWhen(t.id, t.raw, DiskOf(ws[d], h), ws[d].store, ws[i].store, f, content);
  }

  /** On a host without the outputs the upload step finds nothing to do, and the job still returns nil. */
  lemma AnotherHostReturnsWithoutOutputs(t: Task, w: World, h: Host) returns (ws: seq<World>)
    requires w.phase == Idle && w.ready && Outputs(DiskOf(w, h)) == {}
    ensures |ws| == 4 && ws[0] == w && ws[1] == Apply(t, w, Deliver(h))
    ensures ws[2] == Apply(t, ws[1], UploadsDone) && ws[2].phase == Cleaning
    ensures ws[3] == Apply(t, ws[2], TaskReturns) && ws[3].store == w.store
  {
    var w1 := Apply(t, w, Deliver(h));
    var w2 := Apply(t, w1, UploadsDone);
    ws := [w, w1, w2, Apply(t, w2, TaskReturns)];
  }
}

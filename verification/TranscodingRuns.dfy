/**
 The life of one video over any number of executions that do not overlap:
 deliveries and redeliveries of its job, admin retries, thumbnail normalisation.
 */
module TranscodingRuns {
  import opened Basics
  import opened Sublists
  import opened VideoRecords
  import opened MasterPlaylist
  import opened Transcoding

  datatype Op =
    | Process(o: Outcomes)
    | Die(left: Video)   // a worker dies somewhere in an execution, and leaves these columns
    | AdminRetry(saved: bool)
    | NormalizeThumbnail(path: string, saved: bool)

  ghost predicate Step(id: VideoId, source: Source, v: Video, op: Op, v': Video) {
    match op
    case Process(o) => Processed(id, source, o, v, v')
    case Die(left) =>
      v' == if Startable(v) then v.(status := Processing, duration := left.duration, resolution := left.resolution,
                                    progress := left.progress, hlsMaster := left.hlsMaster) else v
    case AdminRetry(saved) => v' == if v.status == Failed && saved then v.(status := Uploading) else v
    case NormalizeThumbnail(path, saved) =>
      v' == if v.status == Ready && v.thumbnail.Some? && v.thumbnail.value != path && saved then ReadyRow(v, v.qualities, path)
            else v
  }

  /** A video starts out freshly uploaded. */
  ghost predicate IsRun(id: VideoId, source: Source, vs: seq<Video>, ops: seq<Op>) {
    && |vs| == |ops| + 1
    && vs[0].status == Uploading && vs[0].qualities == [] && vs[0].hlsMaster == None
    && forall i :: 0 <= i < |ops| ==> Step(id, source, vs[i], ops[i], vs[i + 1])
  }

  /** Some rungs of the ladder in order, at least one, none taller than the source. */
  ghost predicate Watchable(source: Source, v: Video) {
    && v.qualities != []
    && IsSublist(v.qualities, LADDER)
    && forall q :: q in v.qualities ==> Height(q) <= source.height
  }

  ghost predicate Sound(source: Source, v: Video) {
    && (v.status == Ready ==> Watchable(source, v))
    && (v.status != Ready ==> v.qualities == [])
    && (Startable(v) ==> v.hlsMaster == None)
  }

  /** Exactly the rungs that fit and encoded, in the ladder's order. */
  lemma TranscodedRungs(source: Source, o: Outcomes)
    ensures IsSublist(Transcoded(source, o), LADDER)
    ensures forall q :: q in Transcoded(source, o) <==> Height(q) <= source.height && o.encoded(q)
  {
    FilteredSelects(LADDER, Made(source, o));
    forall q: Quality ensures q in LADDER {
      match q
      case P360 => assert LADDER[0] == q;
      case P480 => assert LADDER[1] == q;
      case P720 => assert LADDER[2] == q;
      case P1080 => assert LADDER[3] == q;
    }
  }

  lemma StepIsSound(id: VideoId, source: Source, v: Video, op: Op, v': Video)
    requires Sound(source, v) && Step(id, source, v, op, v')
    ensures Sound(source, v')
    ensures v.status == Ready ==> v'.status == Ready && v'.qualities == v.qualities && v'.hlsMaster == v.hlsMaster
  {
    if op.Process? {
      TranscodedRungs(source, op.o);
    }
  }

  /** Whatever is ready can be watched. */
  lemma {:induction false} ReadyIsWatchable(id: VideoId, source: Source, vs: seq<Video>, ops: seq<Op>, j: nat)
    requires IsRun(id, source, vs, ops) && j < |vs|
    ensures Sound(source, vs[j])
  {
    if 0 < j {
      ReadyIsWatchable(id, source, vs, ops, j - 1);
      StepIsSound(id, source, vs[j - 1], ops[j - 1], vs[j]);
    }
  }

  /** Ready is for good: no redelivery, death, retry or normalisation takes a rendition away. */
  lemma {:induction false} ReadyIsForGood(id: VideoId, source: Source, vs: seq<Video>, ops: seq<Op>, i: nat, j: nat)
    requires IsRun(id, source, vs, ops) && i <= j < |vs| && vs[i].status == Ready
    ensures vs[j].status == Ready && vs[j].qualities == vs[i].qualities && vs[j].hlsMaster == vs[i].hlsMaster
  {
    if i < j {
      ReadyIsForGood(id, source, vs, ops, i, j - 1);
      ReadyIsWatchable(id, source, vs, ops, j - 1);
      StepIsSound(id, source, vs[j - 1], ops[j - 1], vs[j]);
    }
  }

  // ---- Exactly when a video gets stuck ----

  /** An execution whose closing status write fails. */
  predicate LosesItsEnd(source: Source, o: Outcomes) {
    o.startSaved && if Succeeds(source, o) then !o.readySaved else !o.failedSaved
  }

  /** A step that leaves a startable row in processing: a death, or a lost closing write. */
  predicate Strands(source: Source, v: Video, op: Op) {
    Startable(v) && (op.Die? || (op.Process? && LosesItsEnd(source, op.o)))
  }

  lemma StepStrandsExactlyWhen(id: VideoId, source: Source, v: Video, op: Op, v': Video)
    requires Step(id, source, v, op, v')
    ensures v'.status == Processing <==> v.status == Processing || Strands(source, v, op)
    ensures v.status == Processing ==> v' == v
  {
  }

  /**
   A video is in processing between executions exactly when at some earlier step an
   execution that had started died or could not write its closing status. Every other
   execution that starts ends in ready or failed.
   */
  lemma {:induction false} StuckExactlyWhenStranded(id: VideoId, source: Source, vs: seq<Video>, ops: seq<Op>, j: nat)
    requires IsRun(id, source, vs, ops) && j < |vs|
    ensures vs[j].status == Processing <==> exists i :: 0 <= i < j && Strands(source, vs[i], ops[i])
  {
    if 0 < j {
      StuckExactlyWhenStranded(id, source, vs, ops, j - 1);
      StepStrandsExactlyWhen(id, source, vs[j - 1], ops[j - 1], vs[j]);
    }
  }

  /** And there it stays: no redelivery restarts it and the admin retry does not accept it. */
  lemma {:induction false} StrandedForGood(id: VideoId, source: Source, vs: seq<Video>, ops: seq<Op>, i: nat, j: nat)
    requires IsRun(id, source, vs, ops) && i <= j < |vs| && vs[i].status == Processing
    ensures vs[j] == vs[i]
  {
    if i < j {
      StrandedForGood(id, source, vs, ops, i, j - 1);
      StepStrandsExactlyWhen(id, source, vs[j - 1], ops[j - 1], vs[j]);
    }
  }

  /** An execution makes a video ready exactly when some rung fits the source and encodes, and the writes of status succeed. */
  lemma ReadyExactlyWhenARungIsMade(id: VideoId, source: Source, o: Outcomes, v: Video, v': Video)
    requires Starts(o, v) && Processed(id, source, o, v, v')
    ensures v'.status == Ready <==>
      o.probed && o.directoryMade && o.readySaved && exists q :: Height(q) <= source.height && o.encoded(q)
    ensures v'.status == Ready || v'.status == Failed <==> !LosesItsEnd(source, o)
  {
    TranscodedRungs(source, o);
    if q :| Height(q) <= source.height && o.encoded(q) {
      assert q in Transcoded(source, o);
    }
    if Transcoded(source, o) != [] {
      assert Transcoded(source, o)[0] in Transcoded(source, o);
    }
  }

  /** The execution leaves a master playlist with something in it on disk. */
  ghost predicate WritesMaster(source: Source, o: Outcomes) {
    o.masterCreated && exists q :: Height(q) <= source.height && o.encoded(q) && o.segmented(q)
  }

  lemma MasterIsWrittenExactlyWhen(source: Source, o: Outcomes)
    ensures MasterFile(Transcoded(source, o), o).Some? <==> WritesMaster(source, o)
  {
    TranscodedRungs(source, o);
    FilteredSelects(Transcoded(source, o), o.segmented);
    var streamable := Filtered(Transcoded(source, o), o.segmented);
    if q :| Height(q) <= source.height && o.encoded(q) && o.segmented(q) {
      assert q in streamable;
    }
    if streamable != [] {
      assert streamable[0] in streamable;
    }
  }

  /**
   A row made ready tells what there is: exactly the rungs that fit and encoded, in order; a master playlist
   under its key exactly if one was written; the thumbnail, or no path; and full progress. What was probed is
   in it as far as it could be written, and nothing else has changed.
   */
  lemma ReadyRowsTellWhatThereIs(id: VideoId, source: Source, o: Outcomes, v: Video, v': Video)
    requires Processed(id, source, o, v, v') && Starts(o, v) && v'.status == Ready
    ensures IsSublist(v'.qualities, [P360, P480, P720, P1080])
    ensures forall q :: q in v'.qualities <==> Height(q) <= source.height && o.encoded(q)
    ensures v'.hlsMaster ==
      if WritesMaster(source, o) && o.hlsSaved then Some("transcoded/" + id + "/hls/master.m3u8") else v.hlsMaster
    ensures v'.thumbnail == Some(if o.thumbnail.Some? then o.thumbnail.value else "") && v'.progress == 100
    ensures v'.duration == if o.durationSaved then source.duration else v.duration
    ensures v'.resolution == if o.resolutionSaved then source.resolution else v.resolution
    ensures v'.filePath == v.filePath
  {
    TranscodedRungs(source, o);
    MasterIsWrittenExactlyWhen(source, o);
  }

  /** The answer tells how the row ended; one that may not start is left alone. */
  lemma AnswersTellTheStatus(id: VideoId, source: Source, o: Outcomes, v: Video, v': Video)
    requires Processed(id, source, o, v, v')
    ensures Answer(source, o, v).Ok? <==> Startable(v) && v'.status == Ready
    ensures Answer(source, o, v) == Err(WrongStatus) <==> v.status == Processing || v.status == Ready
    ensures Answer(source, o, v) == Err(WrongStatus) ==> v' == v
    ensures v'.status == Failed && v' != v ==> v'.qualities == v.qualities && v'.thumbnail == v.thumbnail && v'.hlsMaster == v.hlsMaster
    ensures v'.filePath == v.filePath
  {
    TranscodedRungs(source, o);
  }

  /** A failed video can be tried again, at an admin's word or by redelivery, and gets ready if the execution goes well. */
  lemma FailedVideosCanBeRetried(id: VideoId, source: Source, v: Video, o: Outcomes, v': Video, v'': Video)
    requires v.status == Failed && Step(id, source, v, AdminRetry(true), v')
    requires o.startSaved && o.readySaved && Succeeds(source, o) && Step(id, source, v', Process(o), v'')
    ensures v'.status == Uploading && v' == v.(status := Uploading) && v''.status == Ready
  {
  }

  /** So whatever gets ready reaches the lowest rung: a shorter source fails however often it is retried. */
  lemma ReadySourcesReachTheLowestRung(id: VideoId, source: Source, vs: seq<Video>, ops: seq<Op>, j: nat)
    requires IsRun(id, source, vs, ops) && j < |vs| && vs[j].status == Ready
    ensures Height(P360) <= source.height
  {
    ReadyIsWatchable(id, source, vs, ops, j);
    var lowest := vs[j].qualities[0];
    assert lowest in vs[j].qualities && Height(P360) <= Height(lowest);
  }

  /** What the master playlist announces: in-order, only renditions that were made and segmented. */
  lemma MasterAnnouncesMadeRenditions(transcoded: seq<Quality>, o: Outcomes) returns (listed: seq<Quality>)
    ensures IsSublist(listed, transcoded)
    ensures forall q :: q in listed <==> q in transcoded && o.segmented(q) && o.playlistPresent(q)
    ensures MasterFile(transcoded, o).Some? ==> Variants(Lines(MasterFile(transcoded, o).value, "")) == Streams(listed)
  {
    listed := Filtered(Filtered(transcoded, o.segmented), o.playlistPresent);
    FilteredSelects(Filtered(transcoded, o.segmented), o.playlistPresent);
    FilteredSelects(transcoded, o.segmented);
    SublistOfSublist(listed, Filtered(transcoded, o.segmented), transcoded);
    PlayersFindEveryQuality(listed);
  }
}

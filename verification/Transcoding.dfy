/** The transcoding ladder, and the status machine of a video going through it. */
module Transcoding {
  import opened Basics
  import opened Sublists
  import opened VideoRecords
  import opened MasterPlaylist

  const LADDER := [P360, P480, P720, P1080]

  datatype Source = Source(duration: int, width: nat, height: nat, resolution: string)

  /**
   What the outside world answers during one execution: whether probing, making the
   directory and each ffmpeg call succeed, and which writes reach the database. Only
   the writes of processing and ready stop the execution when they fail.
   */
  datatype Outcomes = Outcomes(
    probed: bool,
    directoryMade: bool,
    encoded: Quality -> bool,
    segmented: Quality -> bool,
    playlistPresent: Quality -> bool,
    masterCreated: bool,
    thumbnail: Option<string>,
    durationSaved: bool,
    resolutionSaved: bool,
    hlsSaved: bool,
    progressSaved: int -> bool,
    startSaved: bool,
    failedSaved: bool,
    readySaved: bool)

  datatype ProcessError = VideoNotFound | WrongStatus | ProbeFailed | DirectoryFailed | NothingTranscoded | StatusNotSaved

  /** How far along step `i` of the ladder is, with two more steps after the four qualities. */
  function Progress(i: nat): nat {
    i * 100 / 6
  }

  /** Six steps in all, in whole percents rounded down. */
  lemma ProgressSteps()
    ensures [Progress(0), Progress(1), Progress(2), Progress(3), Progress(4), Progress(5), Progress(6)]
         == [0, 16, 33, 50, 66, 83, 100]
  {
  }

  function MasterKey(id: VideoId): string {
    "transcoded/" + id + "/hls/master.m3u8"
  }

  predicate Startable(v: Video) {
    v.status == Uploading || v.status == Failed
  }

  /** A rendition is made only if it does not upscale, and only if ffmpeg manages it. */
  function Made(source: Source, o: Outcomes): Quality -> bool {
    q => Height(q) <= source.height && o.encoded(q)
  }

  function Transcoded(source: Source, o: Outcomes): seq<Quality> {
    Filtered(LADDER, Made(source, o))
  }

  /** ffmpeg makes at least one rendition. */
  predicate Succeeds(source: Source, o: Outcomes) {
    o.probed && o.directoryMade && Transcoded(source, o) != []
  }

  /** The execution gets past the status check and the first write. */
  predicate Starts(o: Outcomes, v: Video) {
    Startable(v) && o.startSaved
  }

  /** It gets as far as running ffmpeg. */
  predicate RunsFFmpeg(o: Outcomes, v: Video) {
    Starts(o, v) && o.probed && o.directoryMade
  }

  /** What an execution started on this row answers. */
  function Answer(source: Source, o: Outcomes, v: Video): Result<(), ProcessError> {
    if !Startable(v) then Err(WrongStatus)
    else if !o.startSaved then Err(StatusNotSaved)
    else if !o.probed then Err(ProbeFailed)
    else TranscodeAnswer(source, o)
  }

  function TranscodeAnswer(source: Source, o: Outcomes): Result<(), ProcessError> {
    if !o.directoryMade then Err(DirectoryFailed)
    else if Transcoded(source, o) == [] then Err(NothingTranscoded)
    else if !o.readySaved then Err(StatusNotSaved)
    else Ok(())
  }

  /** The status of a row whose execution has failed, if that could be written. */
  function AfterFailure(o: Outcomes): Status {
    if o.failedSaved then Failed else Processing
  }

  /** The master playlist an execution that made `transcoded` leaves on disk, if any. */
  function MasterFile(transcoded: seq<Quality>, o: Outcomes): Option<string> {
    var streamable := Filtered(transcoded, o.segmented);
    if streamable == [] || !o.masterCreated then None
    else Some(Text(Master(Streams(Filtered(streamable, o.playlistPresent)))))
  }

  function Streaming(id: VideoId, transcoded: seq<Quality>, o: Outcomes, v: Video): Video {
    if MasterFile(transcoded, o).Some? && o.hlsSaved then v.(hlsMaster := Some(MasterKey(id))) else v
  }

  function ThumbnailPath(o: Outcomes): string {
    if o.thumbnail.Some? then o.thumbnail.value else ""
  }

  function FinishedRow(id: VideoId, transcoded: seq<Quality>, o: Outcomes, v: Video): Video {
    ReadyRow(Streaming(id, transcoded, o, v), transcoded, ThumbnailPath(o))
  }

  /** What becomes of a described row; one that is not finished keeps the progress it got to. */
  ghost predicate Tried(id: VideoId, source: Source, o: Outcomes, described: Video, v': Video) {
    if !Succeeds(source, o) then v' == described.(status := AfterFailure(o), progress := v'.progress)
    else if o.readySaved then v' == FinishedRow(id, Transcoded(source, o), o, described)
    else v' == Streaming(id, Transcoded(source, o), o, described).(progress := v'.progress)
  }

  /** The row after an execution. */
  ghost predicate Processed(id: VideoId, source: Source, o: Outcomes, v: Video, v': Video) {
    if !Starts(o, v) then v' == v
    else
      var started := v.(status := Processing);
      if !o.probed then v' == started.(status := AfterFailure(o))
      else Tried(id, source, o, Described(started, source.duration, o.durationSaved, source.resolution, o.resolutionSaved), v')
  }

  /** From `start` on, reported progress never goes back and stays within 0..limit. */
  ghost predicate Climbs(reports: seq<int>, start: nat, limit: int) {
    && start <= |reports|
    && (forall k :: start <= k < |reports| ==> 0 <= reports[k] <= limit)
    && (forall k, k' :: start <= k < k' < |reports| ==> reports[k] <= reports[k'])
  }

  lemma ClimbsOn(reports: seq<int>, start: nat, limit: int, progress: int)
    requires Climbs(reports, start, limit) && 0 <= limit <= progress
    ensures Climbs(reports, start, progress) && Climbs(reports + [progress], start, progress)
  {
  }

  /** The progress column shows the last value that was saved. */
  function Shown(reports: seq<int>, start: nat, before: int): int {
    if |reports| <= start then before else reports[|reports| - 1]
  }

  /** Of all rows only one may have changed. */
  ghost predicate OnlyRow(id: VideoId, rows: Rows, rows': Rows) {
    id in rows && id in rows' && rows' == rows[id := rows'[id]]
  }

  class TranscodingService {
    const videos: VideoTable

    constructor (videos: VideoTable)
      ensures this.videos == videos
    {
      this.videos := videos;
    }

    method Report(id: VideoId, progress: nat, o: Outcomes, ghost start: nat, ghost limit: nat)
      requires id in videos.rows && Climbs(videos.reports, start, limit) && limit <= progress
      modifies videos
      ensures OnlyRow(id, old(videos.rows), videos.rows)
      ensures var v := old(videos.rows)[id];
              videos.rows[id] == v.(progress := Shown(videos.reports, |old(videos.reports)|, v.progress))
      ensures videos.reports == old(videos.reports) || videos.reports == old(videos.reports) + [progress]
      ensures Climbs(videos.reports, start, progress)
    {
      ClimbsOn(videos.reports, start, limit, progress);
      videos.UpdateProgress(id, progress, o.progressSaved(progress));
    }

    /** One rung after another; a rung that fails is skipped, not retried. */
    method ClimbLadder(id: VideoId, source: Source, o: Outcomes) returns (transcoded: seq<Quality>)
      requires id in videos.rows
      modifies videos
      ensures transcoded == Transcoded(source, o)
      ensures OnlyRow(id, old(videos.rows), videos.rows)
      ensures var v := old(videos.rows)[id];
              videos.rows[id] == v.(progress := Shown(videos.reports, |old(videos.reports)|, v.progress))
      ensures old(videos.reports) <= videos.reports && Climbs(videos.reports, |old(videos.reports)|, Progress(3))
    {
      ghost var v, start := videos.rows[id], |videos.reports|;
      transcoded := [];
      for i := 0 to |LADDER|
        invariant transcoded == Filtered(LADDER[..i], Made(source, o))
        invariant OnlyRow(id, old(videos.rows), videos.rows)
        invariant videos.rows[id] == v.(progress := Shown(videos.reports, start, v.progress))
        invariant old(videos.reports) <= videos.reports
        invariant Climbs(videos.reports, start, if i == 0 then 0 else Progress(i - 1))
      {
        FilteredOnce(LADDER, i, Made(source, o));
        var quality := LADDER[i];
        if source.height < Height(quality) {
          continue;
        }
        Report(id, Progress(i), o, start, if i == 0 then 0 else Progress(i - 1));
        if !o.encoded(quality) {
          continue;
        }
        transcoded := transcoded + [quality];
      }
      assert LADDER[..|LADDER|] == LADDER;
    }

    method Segment(transcoded: seq<Quality>, o: Outcomes) returns (hlsQualities: seq<Quality>)
      ensures hlsQualities == Filtered(transcoded, o.segmented)
    {
      hlsQualities := [];
      for i := 0 to |transcoded|
        invariant hlsQualities == Filtered(transcoded[..i], o.segmented)
      {
        FilteredOnce(transcoded, i, o.segmented);
        if !o.segmented(transcoded[i]) {
          continue;
        }
        hlsQualities := hlsQualities + [transcoded[i]];
      }
      assert transcoded[..|transcoded|] == transcoded;
    }

    method PublishStreams(id: VideoId, transcoded: seq<Quality>, o: Outcomes) returns (master: Option<string>)
      requires id in videos.rows
      modifies videos
      ensures master == MasterFile(transcoded, o)
      ensures videos.rows == old(videos.rows)[id := Streaming(id, transcoded, o, old(videos.rows)[id])]
      ensures videos.reports == old(videos.reports)
    {
      var hlsQualities := Segment(transcoded, o);
      master := None;
      if |hlsQualities| > 0 {
        master := GenerateMasterPlaylist(hlsQualities, o.playlistPresent, o.masterCreated);
        if master.Some? && o.hlsSaved {
          videos.UpdateHLSInfo(id, MasterKey(id));
        }
      }
    }

    method PublishAndReport(id: VideoId, transcoded: seq<Quality>, o: Outcomes, ghost start: nat) returns (master: Option<string>)
      requires id in videos.rows
      requires Climbs(videos.reports, start, Progress(3))
      modifies videos
      ensures master == MasterFile(transcoded, o)
      ensures OnlyRow(id, old(videos.rows), videos.rows)
      ensures videos.rows[id] == Streaming(id, transcoded, o, old(videos.rows)[id]).(progress := videos.rows[id].progress)
      ensures old(videos.reports) <= videos.reports && Climbs(videos.reports, start, Progress(5))
      ensures videos.rows[id].progress == Shown(videos.reports, |old(videos.reports)|, old(videos.rows)[id].progress)
    {
      Report(id, Progress(4), o, start, Progress(3));
      master := PublishStreams(id, transcoded, o);
      Report(id, Progress(5), o, start, Progress(4));
    }

    /** What is left after the ladder: streaming, thumbnail, and the row made ready. */
    method Finish(id: VideoId, transcoded: seq<Quality>, o: Outcomes, ghost start: nat) returns (master: Option<string>)
      requires id in videos.rows
      requires Climbs(videos.reports, start, Progress(3))
      modifies videos
      ensures master == MasterFile(transcoded, o)
      ensures OnlyRow(id, old(videos.rows), videos.rows)
      ensures videos.rows[id] ==
        if o.readySaved then FinishedRow(id, transcoded, o, old(videos.rows)[id])
        else Streaming(id, transcoded, o, old(videos.rows)[id]).(progress := videos.rows[id].progress)
      ensures old(videos.reports) <= videos.reports && Climbs(videos.reports, start, 100)
      ensures videos.rows[id].progress == Shown(videos.reports, |old(videos.reports)|, old(videos.rows)[id].progress)
    {
      master := PublishAndReport(id, transcoded, o, start);
      ClimbsOn(videos.reports, start, Progress(5), 100);
      videos.MarkAsReady(id, transcoded, ThumbnailPath(o), o.readySaved);
      if !o.readySaved {
        return;
      }
      Report(id, 100, o, start, 100);
    }

    /** Everything after the source has been described. */
    method Transcode(id: VideoId, source: Source, o: Outcomes) returns (r: Result<(), ProcessError>, master: Option<string>)
      requires id in videos.rows && o.probed && videos.rows[id].status == Processing
      modifies videos
      ensures OnlyRow(id, old(videos.rows), videos.rows)
      ensures r == TranscodeAnswer(source, o)
      ensures Tried(id, source, o, old(videos.rows)[id], videos.rows[id])
      ensures master == if Succeeds(source, o) then MasterFile(Transcoded(source, o), o) else None
      ensures old(videos.reports) <= videos.reports && Climbs(videos.reports, |old(videos.reports)|, 100)
      ensures videos.rows[id].progress == Shown(videos.reports, |old(videos.reports)|, old(videos.rows)[id].progress)
    {
      if !o.directoryMade {
        videos.MarkAsFailed(id, o.failedSaved);
        return Err(DirectoryFailed), None;
      }
      ghost var start := |videos.reports|;
      var transcoded := ClimbLadder(id, source, o);
      if |transcoded| == 0 {
        videos.MarkAsFailed(id, o.failedSaved);
        return Err(NothingTranscoded), None;
      }
      ghost var climbed := videos.reports;
      master := Finish(id, transcoded, o, start);
      ShownThroughout(old(videos.reports), climbed, videos.reports, old(videos.rows[id].progress));
      r := if o.readySaved then Ok(()) else Err(StatusNotSaved);
    }

    method ProcessVideo(id: VideoId, source: Source, o: Outcomes) returns (r: Result<(), ProcessError>, master: Option<string>)
      modifies videos
      ensures id !in old(videos.rows) ==> r == Err(VideoNotFound) && videos.rows == old(videos.rows)
      ensures id in old(videos.rows) ==>
        && OnlyRow(id, old(videos.rows), videos.rows)
        && Processed(id, source, o, old(videos.rows)[id], videos.rows[id])
        && videos.rows[id].progress == Shown(videos.reports, |old(videos.reports)|, old(videos.rows)[id].progress)
        && r == Answer(source, o, old(videos.rows)[id])
        && master == if Starts(o, old(videos.rows)[id]) && Succeeds(source, o) then MasterFile(Transcoded(source, o), o) else None
      ensures old(videos.reports) <= videos.reports && Climbs(videos.reports, |old(videos.reports)|, 100)
      ensures r.Ok? ==> videos.rows[id].progress == 100
    {
      master := None;
      if id !in videos.rows {
        return Err(VideoNotFound), master;
      }
      var video := videos.rows[id];
      if video.status != Uploading && video.status != Failed {
        return Err(WrongStatus), master;
      }
      videos.UpdateStatus(id, Processing, o.startSaved);
      if !o.startSaved {
        return Err(StatusNotSaved), master;
      }
      if !o.probed {
        videos.MarkAsFailed(id, o.failedSaved);
        return Err(ProbeFailed), master;
      }
      videos.UpdateDescription(id, source.duration, o.durationSaved, source.resolution, o.resolutionSaved);
      r, master := Transcode(id, source, o);
    }
  }

  lemma ShownThroughout(first: seq<int>, middle: seq<int>, last: seq<int>, before: int)
    requires first <= middle <= last
    ensures Shown(last, |first|, before) == Shown(last, |middle|, Shown(middle, |first|, before))
  {
  }
}

/** The columns of a video row that transcoding reads and writes. */
module VideoRecords {
  import opened Basics

  type VideoId = string

  datatype Status = Uploading | Processing | Ready | Failed

  datatype Quality = P360 | P480 | P720 | P1080

  datatype Video = Video(
    status: Status,
    filePath: string,
    duration: int,
    resolution: string,
    progress: int,
    qualities: seq<Quality>,
    thumbnail: Option<string>,
    hlsMaster: Option<string>)

  type Rows = map<VideoId, Video>

  /**
   `reports` logs every value the progress column was set to, oldest first. Each
   write takes a flag that says whether it got through.
   */
  class VideoTable {
    var rows: Rows
    ghost var reports: seq<int>

    constructor ()
      ensures rows == map[] && reports == []
    {
      rows, reports := map[], [];
    }

    method UpdateStatus(id: VideoId, status: Status, saved: bool)
      requires id in rows
      modifies this
      ensures rows == if saved then old(rows)[id := old(rows)[id].(status := status)] else old(rows)
      ensures reports == old(reports)
    {
      if saved {
        rows := rows[id := rows[id].(status := status)];
      }
    }

    method UpdateProgress(id: VideoId, progress: int, saved: bool)
      requires id in rows
      modifies this
      ensures rows == if saved then old(rows)[id := old(rows)[id].(progress := progress)] else old(rows)
      ensures reports == if saved then old(reports) + [progress] else old(reports)
    {
      if saved {
        rows := rows[id := rows[id].(progress := progress)];
        reports := reports + [progress];
      }
    }

    method UpdateDescription(id: VideoId, duration: int, durationSaved: bool, resolution: string, resolutionSaved: bool)
      requires id in rows
      modifies this
      ensures rows == old(rows)[id := Described(old(rows)[id], duration, durationSaved, resolution, resolutionSaved)]
      ensures reports == old(reports)
    {
      if durationSaved {
        rows := rows[id := rows[id].(duration := duration)];
      }
      if resolutionSaved {
        rows := rows[id := rows[id].(resolution := resolution)];
      }
    }

    method UpdateHLSInfo(id: VideoId, master: string)
      requires id in rows
      modifies this
      ensures rows == old(rows)[id := old(rows)[id].(hlsMaster := Some(master))] && reports == old(reports)
    {
      rows := rows[id := rows[id].(hlsMaster := Some(master))];
    }

    method MarkAsReady(id: VideoId, qualities: seq<Quality>, thumbnail: string, saved: bool)
      requires id in rows
      modifies this
      ensures rows == if saved then old(rows)[id := ReadyRow(old(rows)[id], qualities, thumbnail)] else old(rows)
      ensures reports == if saved then old(reports) + [100] else old(reports)
    {
      if !saved {
        return;
      }
      var row := rows[id].(status := Ready, qualities := qualities);
      row := row.(thumbnail := Some(thumbnail), progress := 100);
      rows := rows[id := row];
      reports := reports + [100];
    }

    method MarkAsFailed(id: VideoId, saved: bool)
      requires id in rows
      modifies this
      ensures rows == if saved then old(rows)[id := old(rows)[id].(status := Failed)] else old(rows)
      ensures reports == old(reports)
    {
      UpdateStatus(id, Failed, saved);
    }
  }

  function Described(v: Video, duration: int, durationSaved: bool, resolution: string, resolutionSaved: bool): Video {
    v.(duration := if durationSaved then duration else v.duration,
       resolution := if resolutionSaved then resolution else v.resolution)
  }

  function ReadyRow(v: Video, qualities: seq<Quality>, thumbnail: string): Video {
    v.(status := Ready, qualities := qualities, thumbnail := Some(thumbnail), progress := 100)
  }
}
